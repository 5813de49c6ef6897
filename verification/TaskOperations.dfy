/** Creation, claiming, operator requests and post-restore invalidation: what each of them keeps. */
module TaskOperations {
  import opened Bytes
  import opened Storage
  import opened TaskModel
  import opened TaskSteps
  import opened TaskInvariants
  import opened TaskPreservation

  /* ----- events without an attempt ----- */

  lemma TaskEventsExtend(attempts: seq<Attempt>, events: seq<Event>, more: seq<Event>)
    requires EventsOk(attempts, events) && forall k :: 0 <= k < |more| ==> more[k].attempt.None?
    ensures EventsOk(attempts, events + more)
  {
    var all := events + more;
    forall i | 0 <= i < |all| ensures EventOk(attempts, all[i]) {
      if i < |events| { assert EventOk(attempts, events[i]); }
    }
  }

  /* ----- one task row, no attempt ----- */

  /** A request of an operator on one task: its row, its image, its events, its staging. */
  function Replace(s: State, t: nat, task: Task, image: Image, more: seq<Event>, store: Store): State
    requires Linked(s) && t < |s.tasks|
  {
    s.(tasks := s.tasks[t := task], images := s.images[s.tasks[t].image := image], events := s.events + more, store := store)
  }

  predicate TaskRowOk(task: Task, task': Task) {
    && SameTask(task, task') && TaskOk(task')
    && (task'.holdsSlot ==> task.holdsSlot)
    && (task.status == Succeeded ==> task'.status == Succeeded)
    && (Terminal(task.status) ==> Terminal(task'.status))
  }

  lemma ReplaceKeepsInv(s: State, t: nat, task: Task, image: Image, more: seq<Event>, store: Store)
    requires Inv(s) && t < |s.tasks| && TaskRowOk(s.tasks[t], task)
    requires forall k :: 0 <= k < |more| ==> more[k].attempt.None?
    ensures Inv(Replace(s, t, task, image, more, store))
    ensures Evolves(s, Replace(s, t, task, image, more, store))
  {
    var s' := Replace(s, t, task, image, more, store);
    TaskEventsExtend(s.attempts, s.events, more);
    forall u: nat | u < |s'.tasks| && InFlight(s'.tasks[u].status) ensures exists b :: Working(s', u, b) {
      assert InFlight(s.tasks[u].status);
      var b :| Working(s, u, b);
      assert Working(s', u, b);
    }
  }

  /** What an operator's request may do to the image of its task. */
  predicate ImageAdjusts(task: Task, image: Image, task': Task, image': Image) {
    && (image' == image
        || (task.operation == Capture && image' == image.(status := image'.status)
            && (image.status == ImageStatus.Capturing || image.status == ImageStatus.Failed)
            && (image'.status == ImageStatus.Capturing || image'.status == ImageStatus.Failed)))
    && (task.operation == Capture ==> (image'.status == ImageStatus.Capturing <==> Pending(task')))
  }

  lemma ReplaceKeepsTasks(s: State, t: nat, task: Task, image: Image, more: seq<Event>, store: Store)
    requires Linked(s) && TasksMatchImages(s) && t < |s.tasks| && SameTask(s.tasks[t], task)
    requires s.tasks[t].status == Succeeded ==> task.status == Succeeded
    requires Active(task.status) ==> Active(s.tasks[t].status)
    requires ImageAdjusts(s.tasks[t], s.images[s.tasks[t].image], task, image)
    ensures Linked(Replace(s, t, task, image, more, store)) && TasksMatchImages(Replace(s, t, task, image, more, store))
  {
    var s' := Replace(s, t, task, image, more, store);
    forall i: nat | i < |s'.images| && s'.images[i].status != ImageStatus.Draft ensures exists u :: CaptureOf(s', u, i) {
      assert CaptureOf(s', CapturerOf(s, i), i);
    }
  }

  lemma ReplaceKeepsStore(h: Hash, s: State, t: nat, task: Task, image: Image, more: seq<Event>, store: Store)
    requires Linked(s) && StoreMatchesImages(h, s) && t < |s.tasks| && store.published == s.store.published
    requires ImageAdjusts(s.tasks[t], s.images[s.tasks[t].image], task, image)
    ensures StoreMatchesImages(h, Replace(s, t, task, image, more, store))
  {
    hide Matches, WellFormedManifest, Pending;
    var s' := Replace(s, t, task, image, more, store);
    forall i: nat | i < |s'.images| ensures ReadyOk(h, s', i) { assert ReadyOk(h, s, i); }
  }

  lemma ReplaceKeepsCatalogue(h: Hash, s: State, t: nat, task: Task, image: Image, more: seq<Event>, store: Store)
    requires Linked(s) && Catalogue(h, s) && t < |s.tasks| && SameTask(s.tasks[t], task)
    requires s.tasks[t].status == Succeeded ==> task.status == Succeeded
    requires Active(task.status) ==> Active(s.tasks[t].status)
    requires store.published == s.store.published
    requires ImageAdjusts(s.tasks[t], s.images[s.tasks[t].image], task, image)
    ensures Catalogue(h, Replace(s, t, task, image, more, store))
  {
    hide TasksMatchImages, StoreMatchesImages, ImageAdjusts, SameTask, Replace;
    ReplaceKeepsTasks(s, t, task, image, more, store);
    ReplaceKeepsStore(h, s, t, task, image, more, store);
  }

  /* ----- cancellation ----- */

  lemma CancelIsReplace(s: State, now: nat, t: nat)
    requires Linked(s) && t < |s.tasks| && CancelTask(now, s.tasks[t]).Some?
    ensures var task := CancelTask(now, s.tasks[t]).value;
            var image := s.images[s.tasks[t].image];
            exists more: seq<Event> :: |more| == 1 && more[0].attempt.None? &&
              Cancel(s, now, t).0 == Replace(s, t, task, if task.operation == Capture then FailCapturing(image) else image, more, s.store)
  {
    var task := CancelTask(now, s.tasks[t]).value;
    var kind := if task.status == Cancelled then CancelledEvent else CancellationRequestedEvent;
    var more := [Event(t, None, None, kind, task.phase, task.bytesProcessed, task.totalBytes, "")];
    var image := s.images[s.tasks[t].image];
    assert s.images[s.tasks[t].image := image] == s.images;
    assert Cancel(s, now, t).0 == Replace(s, t, task, if task.operation == Capture then FailCapturing(image) else image, more, s.store);
  }

  lemma CancelledRow(now: nat, task: Task, image: Image)
    requires TaskOk(task) && CancelTask(now, task).Some?
    requires task.operation == Capture ==> (image.status == ImageStatus.Capturing <==> Pending(task)) && image.status != ImageStatus.Draft
                                           && (image.status == ImageStatus.Ready ==> task.status == Succeeded)
    ensures var task' := CancelTask(now, task).value;
            && TaskRowOk(task, task') && Climbs(task, task') && StaysCancelled(task, task')
            && task'.status != InterventionRequired && (Active(task'.status) ==> Active(task.status))
            && ImageAdjusts(task, image, task', if task.operation == Capture then FailCapturing(image) else image)
  {
  }

  lemma CancelledTask(now: nat, task: Task)
    requires TaskOk(task) && CancelTask(now, task).Some?
    ensures var task' := CancelTask(now, task).value;
            && TaskRowOk(task, task') && Climbs(task, task') && StaysCancelled(task, task') && SameTask(task, task')
            && task.status != InterventionRequired && task'.status != InterventionRequired && task.status != Succeeded
  {
  }

  lemma CancelKeeps(h: Hash, s: State, now: nat, t: nat)
    requires Inv(s)
    ensures Keeps(h, s, Cancel(s, now, t).0, now, true) && Quiet(s, Cancel(s, now, t).0)
  {
    hide Inv, Catalogue, Evolves, Advances, LiveOwnsSlot, Replace, TaskRowOk, TaskOk, CancelTask, Climbs, StaysCancelled, SameTask,
         ImageAdjusts, Pending, Quiet;
    InvIsLinked(s);
    NothingServes(h, s, now);
    if t < |s.tasks| && s.tasks[t].status != InterventionRequired && CancelTask(now, s.tasks[t]).Some? {
      CancelKeepsTask(h, s, now, t);
    }
  }

  lemma CancelKeepsTask(h: Hash, s: State, now: nat, t: nat)
    requires Inv(s) && t < |s.tasks| && s.tasks[t].status != InterventionRequired && CancelTask(now, s.tasks[t]).Some?
    ensures Linked(s) && Keeps(h, s, Cancel(s, now, t).0, now, true) && Quiet(s, Cancel(s, now, t).0)
  {
    hide Inv, Catalogue, Evolves, Advances, LiveOwnsSlot, Replace, TaskRowOk, TaskOk, CancelTask, Climbs, StaysCancelled, SameTask,
         ImageAdjusts, Pending, Quiet, Cancel;
    InvIsLinked(s);
    TaskIsOk(s, t);
    var task := CancelTask(now, s.tasks[t]).value;
    var image := s.images[s.tasks[t].image];
    CancelledTask(now, s.tasks[t]);
    OperationStays(s.tasks[t], task);
    var image' := if task.operation == Capture then FailCapturing(image) else image;
    CancelIsReplace(s, now, t);
    var more: seq<Event> :| |more| == 1 && more[0].attempt.None? && Cancel(s, now, t).0 == Replace(s, t, task, image', more, s.store);
    ReplaceKeepsInv(s, t, task, image', more, s.store);
    ReplaceAdvances(s, t, task, image', more, s.store, now);
    if Catalogue(h, s) {
      CaptureImage(h, s, t);
      CancelledRow(now, s.tasks[t], image);
      ReplaceKeepsCatalogue(h, s, t, task, image', more, s.store);
    }
    KeepsIntro(h, s, Cancel(s, now, t).0, now);
  }

  lemma OperationStays(task: Task, task': Task)
    requires SameTask(task, task')
    ensures task'.operation == task.operation && task'.image == task.image
  {
  }

  lemma TaskIsOk(s: State, t: nat)
    requires Inv(s) && t < |s.tasks|
    ensures TaskOk(s.tasks[t])
  {
  }

  lemma CaptureImage(h: Hash, s: State, t: nat)
    requires Linked(s) && Catalogue(h, s) && t < |s.tasks|
    ensures s.tasks[t].operation == Capture ==>
              && s.images[s.tasks[t].image].status != ImageStatus.Draft
              && (s.images[s.tasks[t].image].status == ImageStatus.Capturing <==> Pending(s.tasks[t]))
              && (s.images[s.tasks[t].image].status == ImageStatus.Ready ==> s.tasks[t].status == Succeeded)
  {
  }

  /** An operator's change that climbs keeps leases with the slot. */
  lemma ReplaceAdvances(s: State, t: nat, task: Task, image: Image, more: seq<Event>, store: Store, now: nat)
    requires Inv(s) && t < |s.tasks| && TaskRowOk(s.tasks[t], task)
    requires Climbs(s.tasks[t], task) && StaysCancelled(s.tasks[t], task)
    requires s.tasks[t].status != InterventionRequired && task.status != InterventionRequired
    requires forall k :: 0 <= k < |more| ==> more[k].attempt.None?
    ensures var s' := Replace(s, t, task, image, more, store);
            Linked(s') && Advances(s, s') && Quiet(s, s') && (LiveOwnsSlot(s, now) ==> LiveOwnsSlot(s', now))
  {
    hide Inv, IsNewest, LiveOwnsSlot, TaskOk, Evolves;
    InvIsLinked(s);
    TaskIsOk(s, t);
    ReplaceKeepsInv(s, t, task, image, more, store);
    InvIsLinked(Replace(s, t, task, image, more, store));
    if LiveOwnsSlot(s, now) { ReplaceKeepsOwners(s, t, task, image, more, store, now); }
  }

  lemma ReplaceKeepsOwners(s: State, t: nat, task: Task, image: Image, more: seq<Event>, store: Store, now: nat)
    requires Linked(s) && LiveOwnsSlot(s, now) && t < |s.tasks| && TaskOk(s.tasks[t]) && TaskRowOk(s.tasks[t], task)
    requires Climbs(s.tasks[t], task) && task.status != InterventionRequired && s.tasks[t].status != InterventionRequired
    ensures Linked(Replace(s, t, task, image, more, store)) && LiveOwnsSlot(Replace(s, t, task, image, more, store), now)
  {
    hide IsNewest;
    var s' := Replace(s, t, task, image, more, store);
    assert InFlight(s.tasks[t].status) && !Closed(task.status) ==> InFlight(task.status);
    forall b | 0 <= b < |s'.attempts| && Honoured(s'.tasks[s'.attempts[b].task], s'.attempts[b], now)
      ensures InFlight(s'.tasks[s'.attempts[b].task].status) && IsNewest(s'.attempts, b)
    {
      assert Honoured(s.tasks[s.attempts[b].task], s.attempts[b], now);
    }
  }

  /* ----- reconciliation ----- */

  /** A reconcile request that the operator should not confirm: some agent may still hold a lease. */
  ghost predicate OverEager(s: State, now: nat, t: nat) {
    && t < |s.tasks| && s.tasks[t].status == InterventionRequired
    && exists a: nat :: Owns(s, t, a) && now < s.attempts[a].leaseExpiresAt
  }

  lemma ReconcileIsReplace(s: State, t: nat)
    requires Linked(s) && t < |s.tasks| && s.tasks[t].status == InterventionRequired
    ensures var i := s.tasks[t].image;
            Reconcile(s, t).0 ==
            Replace(s, t, ReconcileTask(s.tasks[t]),
                    if s.tasks[t].operation == Capture then s.images[i].(status := ImageStatus.Capturing) else s.images[i],
                    [Event(t, None, None, ReconciledEvent, Queued, 0, None, "")], s.store.(staging := s.store.staging - {t}))
  {
    assert s.images[s.tasks[t].image := s.images[s.tasks[t].image]] == s.images;
  }

  /** Reconciling reopens exactly one task; ownership survives exactly when no lease of it is running. */
  lemma {:induction false} ReconcileKeeps(h: Hash, s: State, now: nat, t: nat)
    requires Inv(s)
    ensures var s' := Reconcile(s, t).0;
            && Inv(s') && Evolves(s, s')
            && (forall u :: 0 <= u < |s.tasks| && u != t ==> s'.tasks[u] == s.tasks[u])
            && (Catalogue(h, s) ==> Catalogue(h, s'))
            && (LiveOwnsSlot(s, now) ==> (LiveOwnsSlot(s', now) <==> !OverEager(s, now, t)))
  {
    hide Inv, Evolves, Catalogue, LiveOwnsSlot, OverEager;
    InvIsLinked(s);
    NothingServes(h, s, now);
    NothingEvolves(s);
    if t < |s.tasks| && s.tasks[t].status == InterventionRequired {
      ReconcileOne(h, s, t);
      InvIsLinked(Reconcile(s, t).0);
      if LiveOwnsSlot(s, now) { ReconcileOwnership(s, now, t); }
    } else {
      CalmReconcile(s, now, t);
    }
  }

  lemma NothingEvolves(s: State)
    ensures Evolves(s, s)
  {
  }

  lemma CalmReconcile(s: State, now: nat, t: nat)
    requires t < |s.tasks| ==> s.tasks[t].status != InterventionRequired
    ensures !OverEager(s, now, t)
  {
  }

  lemma ReconcileOne(h: Hash, s: State, t: nat)
    requires Inv(s) && t < |s.tasks| && s.tasks[t].status == InterventionRequired
    ensures var s' := Reconcile(s, t).0; Inv(s') && Evolves(s, s') && Linked(s') && (Catalogue(h, s) ==> Catalogue(h, s'))
  {
    hide Inv, Evolves, Catalogue, Replace;
    InvIsLinked(s);
    TaskIsOk(s, t);
    var i := s.tasks[t].image;
    var task := ReconcileTask(s.tasks[t]);
    var image := if s.tasks[t].operation == Capture then s.images[i].(status := ImageStatus.Capturing) else s.images[i];
    var more := [Event(t, None, None, ReconciledEvent, Queued, 0, None, "")];
    var store := s.store.(staging := s.store.staging - {t});
    ReconcileIsReplace(s, t);
    ReplaceKeepsInv(s, t, task, image, more, store);
    InvIsLinked(Replace(s, t, task, image, more, store));
    if Catalogue(h, s) {
      CaptureImage(h, s, t);
      ReplaceKeepsCatalogue(h, s, t, task, image, more, store);
    }
  }

  lemma ReconcileOwnership(s: State, now: nat, t: nat)
    requires Inv(s) && t < |s.tasks| && s.tasks[t].status == InterventionRequired && LiveOwnsSlot(s, now)
    ensures Linked(Reconcile(s, t).0) && (LiveOwnsSlot(Reconcile(s, t).0, now) <==> !OverEager(s, now, t))
  {
    hide Inv, IsNewest, LiveOwnsSlot, OverEager;
    InvIsLinked(s);
    if OverEager(s, now, t) { OverEagerLoses(s, now, t); } else { CarefulKeeps(s, now, t); }
  }

  lemma OverEagerLoses(s: State, now: nat, t: nat)
    requires Linked(s) && t < |s.tasks| && s.tasks[t].status == InterventionRequired && OverEager(s, now, t)
    ensures Linked(Reconcile(s, t).0) && !LiveOwnsSlot(Reconcile(s, t).0, now)
  {
    hide IsNewest;
    var s' := Reconcile(s, t).0;
    var a: nat :| Owns(s, t, a) && now < s.attempts[a].leaseExpiresAt;
    assert Honoured(s'.tasks[s'.attempts[a].task], s'.attempts[a], now);
  }

  lemma CarefulKeeps(s: State, now: nat, t: nat)
    requires Linked(s) && t < |s.tasks| && s.tasks[t].status == InterventionRequired && LiveOwnsSlot(s, now) && !OverEager(s, now, t)
    ensures Linked(Reconcile(s, t).0) && LiveOwnsSlot(Reconcile(s, t).0, now)
  {
    hide IsNewest, OverEager;
    var s' := Reconcile(s, t).0;
    forall b: nat | b < |s'.attempts| && Honoured(s'.tasks[s'.attempts[b].task], s'.attempts[b], now)
      ensures s'.attempts[b].task != t
    {
      ElapsedIfCareful(s, now, t, b);
    }
    forall b | 0 <= b < |s'.attempts| && Honoured(s'.tasks[s'.attempts[b].task], s'.attempts[b], now)
      ensures InFlight(s'.tasks[s'.attempts[b].task].status) && IsNewest(s'.attempts, b)
    {
      assert Honoured(s.tasks[s.attempts[b].task], s.attempts[b], now);
    }
  }

  lemma ElapsedIfCareful(s: State, now: nat, t: nat, a: nat)
    requires t < |s.tasks| && s.tasks[t].status == InterventionRequired && !OverEager(s, now, t)
    ensures Owns(s, t, a) ==> s.attempts[a].leaseExpiresAt <= now
  {
  }

  /* ----- creation ----- */

  function Created(s: State, task: Task, images: seq<Image>, more: seq<Event>): State {
    s.(tasks := s.tasks + [task], images := images, events := s.events + more)
  }

  /** A new task reserves a free host and waits in the queue. */
  lemma CreationKeeps(s: State, now: nat, task: Task, images: seq<Image>, more: seq<Event>)
    requires Inv(s) && |s.images| <= |images| && task.image < |images|
    requires TaskOk(task) && task.status == Approved && !HostReserved(s, task.host)
    requires forall k :: 0 <= k < |more| ==> more[k].attempt.None?
    ensures var s' := Created(s, task, images, more);
            Inv(s') && Linked(s') && Advances(s, s') && (LiveOwnsSlot(s, now) ==> LiveOwnsSlot(s', now))
  {
    var s' := Created(s, task, images, more);
    TaskEventsExtend(s.attempts, s.events, more);
    forall u: nat | u < |s'.tasks| && InFlight(s'.tasks[u].status) ensures exists b :: Working(s', u, b) {
      var b :| Working(s, u, b);
      assert Working(s', u, b);
    }
  }

  /** A draft image, or a new one. */
  predicate DraftOf(s: State, images: seq<Image>, i: nat) {
    && (images == s.images || images == s.images + [DRAFT])
    && i < |images| && images[i].status == ImageStatus.Draft && images[i].deletedAt.None?
  }

  function CaptureStarted(s: State, task: Task, images: seq<Image>, more: seq<Event>): State
    requires task.image < |images|
  {
    Created(s, task, images[task.image := images[task.image].(status := ImageStatus.Capturing)], more)
  }

  /** No task works on a draft image, so all old tasks still see their images as they were. */
  lemma OldImagesStay(s: State, task: Task, images: seq<Image>, more: seq<Event>, t: nat)
    requires Linked(s) && CapturesMatch(s) && UsesMatch(s) && DraftOf(s, images, task.image) && t < |s.tasks|
    ensures var s' := CaptureStarted(s, task, images, more);
            && s'.tasks[t] == s.tasks[t] && s.tasks[t].image < |s'.images| && s.tasks[t].image != task.image
            && s'.images[s.tasks[t].image] == s.images[s.tasks[t].image]
  {
    hide Active, Pending;
  }

  lemma StartedIsCaptured(s: State, task: Task, images: seq<Image>, more: seq<Event>)
    requires Linked(s) && TasksMatchImages(s) && DraftOf(s, images, task.image) && task.operation == Capture
    ensures EveryImageCaptured(CaptureStarted(s, task, images, more))
  {
    hide CapturesMatch, UsesMatch, OneCapturePerImage;
    var s' := CaptureStarted(s, task, images, more);
    assert CaptureOf(s', |s.tasks|, task.image);
    forall i: nat | i < |s'.images| && s'.images[i].status != ImageStatus.Draft ensures exists u :: CaptureOf(s', u, i) {
      if i != task.image { assert CaptureOf(s', CapturerOf(s, i), i); }
    }
  }

  /** A new capture turns a draft image, or a new one, into its own. */
  lemma CaptureKeepsTasks(s: State, task: Task, images: seq<Image>, more: seq<Event>)
    requires Linked(s) && TasksMatchImages(s) && task.operation == Capture && Pending(task) && DraftOf(s, images, task.image)
    ensures Linked(CaptureStarted(s, task, images, more)) && TasksMatchImages(CaptureStarted(s, task, images, more))
  {
    StartedIsCaptured(s, task, images, more);
    hide EveryImageCaptured, Active, Pending;
    var s' := CaptureStarted(s, task, images, more);
    forall t: nat | t < |s.tasks|
      ensures s'.tasks[t] == s.tasks[t] && s.tasks[t].image < |s'.images| && s.tasks[t].image != task.image
              && s'.images[s.tasks[t].image] == s.images[s.tasks[t].image]
    {
      OldImagesStay(s, task, images, more, t);
    }
  }

  lemma CaptureKeepsStore(h: Hash, s: State, task: Task, images: seq<Image>, more: seq<Event>)
    requires Linked(s) && StoreMatchesImages(h, s) && DraftOf(s, images, task.image)
    ensures StoreMatchesImages(h, CaptureStarted(s, task, images, more))
  {
    hide Matches, WellFormedManifest;
    var s' := CaptureStarted(s, task, images, more);
    forall i: nat | i < |s'.images| ensures ReadyOk(h, s', i) { if i < |s.images| { assert ReadyOk(h, s, i); } }
  }

  lemma CaptureKeepsCatalogue(h: Hash, s: State, task: Task, images: seq<Image>, more: seq<Event>)
    requires Linked(s) && Catalogue(h, s) && task.operation == Capture && Pending(task) && DraftOf(s, images, task.image)
    ensures Catalogue(h, CaptureStarted(s, task, images, more))
  {
    hide TasksMatchImages, StoreMatchesImages, CaptureStarted, DraftOf;
    CaptureKeepsTasks(s, task, images, more);
    CaptureKeepsStore(h, s, task, images, more);
  }

  lemma DeploymentKeepsTasks(s: State, task: Task, more: seq<Event>)
    requires Linked(s) && TasksMatchImages(s) && task.operation != Capture && Selectable(s, task.image)
    ensures Linked(Created(s, task, s.images, more)) && TasksMatchImages(Created(s, task, s.images, more))
  {
    var s' := Created(s, task, s.images, more);
    forall i: nat | i < |s'.images| && s'.images[i].status != ImageStatus.Draft ensures exists u :: CaptureOf(s', u, i) {
      assert CaptureOf(s', CapturerOf(s, i), i);
    }
  }

  lemma DeploymentKeepsCatalogue(h: Hash, s: State, task: Task, more: seq<Event>)
    requires Linked(s) && Catalogue(h, s) && task.operation != Capture && Selectable(s, task.image)
    ensures Catalogue(h, Created(s, task, s.images, more))
  {
    hide TasksMatchImages, StoreMatchesImages, Selectable;
    DeploymentKeepsTasks(s, task, more);
    SameImagesSameStore(h, s, Created(s, task, s.images, more));
  }

  lemma CreateCaptureKeeps(h: Hash, s: State, now: nat, user: nat, host: nat, draft: Option<nat>, report: nat, key: nat,
                           total: nat, valid: bool)
    requires Inv(s)
    ensures Keeps(h, s, CreateCapture(s, now, user, host, draft, report, key, total, valid).0, now, true)
  {
    hide Inv, Keeps, Catalogue, Advances, LiveOwnsSlot, KeyUsed, KeyUsedBy, HostReserved;
    InvIsLinked(s);
    NothingServes(h, s, now);
    var (s', reply) := CreateCapture(s, now, user, host, draft, report, key, total, valid);
    if reply == Accepted {
      var images := if draft.Some? then s.images else s.images + [DRAFT];
      var i := if draft.Some? then draft.value else |s.images|;
      var task := NewTask(Capture, user, host, i, report, key, total, now);
      var images' := images[i := images[i].(status := ImageStatus.Capturing)];
      assert s' == Created(s, task, images', CreationEvents(|s.tasks|, total));
      CreationKeeps(s, now, task, images', CreationEvents(|s.tasks|, total));
      if Catalogue(h, s) { CaptureKeepsCatalogue(h, s, task, images, CreationEvents(|s.tasks|, total)); }
      KeepsIntro(h, s, s', now);
    }
  }

  lemma CreateDeploymentKeeps(h: Hash, s: State, now: nat, user: nat, host: nat, clone: bool, i: nat, report: nat, key: nat, valid: bool)
    requires Inv(s)
    ensures Keeps(h, s, CreateDeployment(s, now, user, host, clone, i, report, key, valid).0, now, true)
  {
    hide Inv, Keeps, Catalogue, Advances, LiveOwnsSlot, KeyUsed, KeyUsedBy, HostReserved;
    InvIsLinked(s);
    NothingServes(h, s, now);
    var (s', reply) := CreateDeployment(s, now, user, host, clone, i, report, key, valid);
    if reply == Accepted {
      var total := DeclaredSize(s.images[i].manifest.value.artifacts);
      var task := NewTask(if clone then Clone else Restore, user, host, i, report, key, total, now);
      assert s' == Created(s, task, s.images, CreationEvents(|s.tasks|, total));
      CreationKeeps(s, now, task, s.images, CreationEvents(|s.tasks|, total));
      if Catalogue(h, s) { DeploymentKeepsCatalogue(h, s, task, CreationEvents(|s.tasks|, total)); }
      KeepsIntro(h, s, s', now);
    }
  }

  /** A new draft concerns no task and is not published. */
  lemma DraftKeepsTasks(s: State, valid: bool)
    requires Linked(s) && TasksMatchImages(s) && Linked(CreateDraft(s, valid).0)
    ensures TasksMatchImages(CreateDraft(s, valid).0)
  {
    var s' := CreateDraft(s, valid).0;
    forall i: nat | i < |s'.images| && s'.images[i].status != ImageStatus.Draft ensures exists u :: CaptureOf(s', u, i) {
      assert CaptureOf(s', CapturerOf(s, i), i);
    }
  }

  lemma DraftKeepsStore(h: Hash, s: State, valid: bool)
    requires StoreMatchesImages(h, s)
    ensures StoreMatchesImages(h, CreateDraft(s, valid).0)
  {
    hide Matches, WellFormedManifest;
    var s' := CreateDraft(s, valid).0;
    forall i: nat | i < |s'.images| ensures ReadyOk(h, s', i) { if i < |s.images| { assert ReadyOk(h, s, i); } }
  }

  lemma DraftKeeps(h: Hash, s: State, now: nat, valid: bool)
    requires Inv(s)
    ensures Keeps(h, s, CreateDraft(s, valid).0, now, true) && Quiet(s, CreateDraft(s, valid).0)
  {
    hide Inv, Keeps, Linked, TasksMatchImages, StoreMatchesImages, Advances, Evolves, LiveOwnsSlot, Quiet;
    InvIsLinked(s);
    var s' := CreateDraft(s, valid).0;
    SameRowsKeepInv(s, s');
    SameRowsSameOwners(s, s', now);
    if Catalogue(h, s) {
      DraftKeepsTasks(s, valid);
      DraftKeepsStore(h, s, valid);
    }
    KeepsIntro(h, s, s', now);
  }

  /* ----- claiming ----- */

  /** Highest number plus one is the right next number because numbers have no gaps. */
  lemma {:induction false} LastNumberIsCount(attempts: seq<Attempt>, t: nat, n: nat)
    requires Numbered(attempts) && n <= |attempts|
    ensures LastNumber(attempts, t, n) == CountOf(attempts, t, n)
  {
    if n > 0 { LastNumberIsCount(attempts, t, n - 1); }
  }

  lemma AssignNumbers(cfg: Config, s: State, now: nat, t: nat, session: nat)
    requires Numbered(s.attempts) && t < |s.tasks|
    ensures Numbered(Assign(cfg, s, now, t, session).attempts)
  {
    LastNumberIsCount(s.attempts, t, |s.attempts|);
    hide LastNumber;
    NumberedSnoc(s.attempts, NewAttempt(cfg, s, now, t, session));
  }

  lemma NumberedSnoc(attempts: seq<Attempt>, x: Attempt)
    requires Numbered(attempts) && x.number == CountOf(attempts, x.task, |attempts|) + 1
    ensures Numbered(attempts + [x])
  {
    hide CountOf;
    var attempts' := attempts + [x];
    forall b | 0 <= b < |attempts'| ensures attempts'[b].number == CountOf(attempts', attempts'[b].task, b) + 1 {
      CountFrame(attempts, attempts', attempts'[b].task, b);
    }
  }

  lemma AssignEvents(cfg: Config, s: State, now: nat, t: nat, session: nat)
    requires EventsOk(s.attempts, s.events) && t < |s.tasks|
    ensures var s' := Assign(cfg, s, now, t, session); EventsOk(s'.attempts, s'.events)
  {
    hide LastNumber;
    assert forall i :: 0 <= i < |s.events| ==> EventOk(s.attempts, s.events[i]);
  }

  /** With the slot free nothing was in flight, so the new attempt is the only one that must be working. */
  lemma AssignWorks(cfg: Config, s: State, now: nat, t: nat, session: nat)
    requires Inv(s) && t < |s.tasks| && s.tasks[t].status == Approved && !SlotTaken(s)
    ensures Linked(Assign(cfg, s, now, t, session)) && NewestUnfinished(Assign(cfg, s, now, t, session))
  {
    hide Numbered, EventsOk, LastNumber, NewestUnfinished;
    var s' := Assign(cfg, s, now, t, session);
    AssignLinked(cfg, s, now, t, session);
    assert Working(s', t, |s.attempts|);
    assert forall u: nat :: u < |s'.tasks| && InFlight(s'.tasks[u].status) ==> u == t;
    OneWorking(s', t, |s.attempts|);
  }

  lemma OneWorking(s: State, t: nat, a: nat)
    requires Working(s, t, a) && forall u: nat :: u < |s.tasks| && InFlight(s.tasks[u].status) ==> u == t
    ensures NewestUnfinished(s)
  {
  }

  lemma AssignLinked(cfg: Config, s: State, now: nat, t: nat, session: nat)
    requires Linked(s) && t < |s.tasks|
    ensures Linked(Assign(cfg, s, now, t, session))
  {
  }

  lemma AssignKeeps(h: Hash, cfg: Config, s: State, now: nat, t: nat, session: nat)
    requires Inv(s) && t < |s.tasks| && s.tasks[t].status == Approved && !SlotTaken(s)
    ensures var s' := Assign(cfg, s, now, t, session);
            Linked(s') && Inv(s') && Advances(s, s') && (LiveOwnsSlot(s, now) ==> LiveOwnsSlot(s', now))
  {
    hide NewestUnfinished, Numbered, EventsOk, LastNumber;
    AssignWorks(cfg, s, now, t, session);
    AssignNumbers(cfg, s, now, t, session);
    AssignEvents(cfg, s, now, t, session);
    var s' := Assign(cfg, s, now, t, session);
    if LiveOwnsSlot(s, now) {
      forall b | 0 <= b < |s'.attempts| && Honoured(s'.tasks[s'.attempts[b].task], s'.attempts[b], now)
        ensures InFlight(s'.tasks[s'.attempts[b].task].status) && IsNewest(s'.attempts, b)
      {
        assert b == |s.attempts|;
      }
    }
  }

  lemma AssignKeepsTasks(cfg: Config, s: State, now: nat, t: nat, session: nat)
    requires Linked(s) && TasksMatchImages(s) && t < |s.tasks| && TaskOk(s.tasks[t]) && s.tasks[t].status == Approved
    ensures Linked(Assign(cfg, s, now, t, session)) && TasksMatchImages(Assign(cfg, s, now, t, session))
  {
    hide LastNumber;
    var s' := Assign(cfg, s, now, t, session);
    forall i: nat | i < |s'.images| && s'.images[i].status != ImageStatus.Draft ensures exists u :: CaptureOf(s', u, i) {
      assert CaptureOf(s', CapturerOf(s, i), i);
    }
  }

  lemma AssignKeepsCatalogue(h: Hash, cfg: Config, s: State, now: nat, t: nat, session: nat)
    requires Linked(s) && Catalogue(h, s) && t < |s.tasks| && TaskOk(s.tasks[t]) && s.tasks[t].status == Approved
    ensures Linked(Assign(cfg, s, now, t, session)) && Catalogue(h, Assign(cfg, s, now, t, session))
  {
    hide TasksMatchImages, StoreMatchesImages, LastNumber, TaskOk;
    AssignKeepsTasks(cfg, s, now, t, session);
    SameImagesSameStore(h, s, Assign(cfg, s, now, t, session));
  }

  lemma ClaimKeeps(h: Hash, cfg: Config, s: State, now: nat, host: nat, session: nat, capable: bool)
    requires Inv(s)
    ensures Keeps(h, s, Claim(cfg, s, now, host, session, capable).0, now, true)
  {
    hide Inv, Keeps, Catalogue, Advances, LiveOwnsSlot, SlotTaken, SessionUsed, Assign;
    InvIsLinked(s);
    NothingServes(h, s, now);
    var (s', reply) := Claim(cfg, s, now, host, session, capable);
    if reply == Accepted {
      var t := OldestApproved(s, host, |s.tasks|).value;
      TaskIsOk(s, t);
      AssignKeeps(h, cfg, s, now, t, session);
      if Catalogue(h, s) { AssignKeepsCatalogue(h, cfg, s, now, t, session); }
      KeepsIntro(h, s, s', now);
    }
  }

  /* ----- deletion ----- */

  lemma DeleteKeepsRows(s: State, now: nat, i: nat)
    requires Inv(s)
    ensures var s' := DeleteImage(s, now, i).0;
            Inv(s') && Linked(s') && Advances(s, s') && Quiet(s, s') && (LiveOwnsSlot(s, now) <==> LiveOwnsSlot(s', now))
  {
    hide ImageBusy, Inv, Linked, LiveOwnsSlot, Advances, Quiet, Evolves;
    InvIsLinked(s);
    SameRowsKeepInv(s, DeleteImage(s, now, i).0);
    SameRowsSameOwners(s, DeleteImage(s, now, i).0, now);
  }

  lemma DeleteKeepsTasks(s: State, now: nat, i: nat)
    requires Linked(s) && TasksMatchImages(s) && Linked(DeleteImage(s, now, i).0)
    ensures TasksMatchImages(DeleteImage(s, now, i).0)
  {
    var s' := DeleteImage(s, now, i).0;
    forall j: nat | j < |s'.images| && s'.images[j].status != ImageStatus.Draft ensures exists u :: CaptureOf(s', u, j) {
      assert CaptureOf(s', CapturerOf(s, j), j);
    }
  }

  lemma DeleteKeepsStore(h: Hash, s: State, now: nat, i: nat)
    requires StoreMatchesImages(h, s)
    ensures StoreMatchesImages(h, DeleteImage(s, now, i).0)
  {
    hide Matches, WellFormedManifest, ImageBusy;
    var s' := DeleteImage(s, now, i).0;
    forall j: nat | j < |s'.images| ensures ReadyOk(h, s', j) { assert ReadyOk(h, s, j); }
  }

  lemma DeleteKeepsCatalogue(h: Hash, s: State, now: nat, i: nat)
    requires Linked(s) && Catalogue(h, s) && Linked(DeleteImage(s, now, i).0)
    ensures Catalogue(h, DeleteImage(s, now, i).0)
  {
    hide TasksMatchImages, StoreMatchesImages, DeleteImage;
    DeleteKeepsTasks(s, now, i);
    DeleteKeepsStore(h, s, now, i);
  }

  lemma DeleteKeeps(h: Hash, s: State, now: nat, i: nat)
    requires Inv(s)
    ensures Keeps(h, s, DeleteImage(s, now, i).0, now, true) && Quiet(s, DeleteImage(s, now, i).0)
  {
    hide Inv, Keeps, Catalogue, Advances, LiveOwnsSlot, DeleteImage, Quiet;
    InvIsLinked(s);
    DeleteKeepsRows(s, now, i);
    if Catalogue(h, s) { DeleteKeepsCatalogue(h, s, now, i); }
    KeepsIntro(h, s, DeleteImage(s, now, i).0, now);
  }

  /* ----- a recovered backup ----- */

  /** What invalidation makes of one task: sent to the operator if it was in flight, else untouched. */
  function Invalidated(task: Task): Task {
    if InFlight(task.status)
    then task.(status := InterventionRequired, holdsSlot := false, cancelRequestedAt := None, cancelAcknowledgedAt := None)
    else task
  }

  /** Although the update only looks for attempts it just finished, it reaches every task in flight. */
  lemma {:induction false} BackupReachesAll(s: State, now: nat)
    requires Inv(s)
    ensures var s' := RestoreBackup(s, now);
            && |s'.tasks| == |s.tasks| && |s'.attempts| == |s.attempts| && s'.images == s.images && s'.events == s.events
            && (forall t :: 0 <= t < |s.tasks| ==> s'.tasks[t] == Invalidated(s.tasks[t]))
            && (forall t :: 0 <= t < |s.tasks| ==> !InFlight(s'.tasks[t].status) && !s'.tasks[t].holdsSlot)
            && (forall a: nat :: a < |s.attempts| && InFlight(s.tasks[s.attempts[a].task].status) ==> s'.attempts[a].finishedAt.Some?)
            && (forall a: nat :: a < |s.attempts| ==>
                  if s.attempts[a].finishedAt.None? && InFlight(s.tasks[s.attempts[a].task].status)
                  then s'.attempts[a].finishedAt == Some(now) && s'.attempts[a].failureReason == ServerRestored
                  else s'.attempts[a] == s.attempts[a])
  {
    var s' := RestoreBackup(s, now);
    forall t: nat | t < |s.tasks| ensures s'.tasks[t] == Invalidated(s.tasks[t]) {
      if InFlight(s.tasks[t].status) {
        var a := WorkingOn(s, t);
        assert s'.attempts[a] == InvalidateAttempt(s, now, a);
      }
    }
  }

  lemma BackupAttempt(s: State, now: nat, a: nat)
    requires Linked(s) && a < |s.attempts| && AttemptOk(s.attempts[a], s.tasks[s.attempts[a].task])
    ensures var x' := InvalidateAttempt(s, now, a);
            && Grows(s.attempts[a], x') && x'.leaseExpiresAt == s.attempts[a].leaseExpiresAt
            && AttemptOk(x', Invalidated(s.tasks[s.attempts[a].task]))
  {
  }

  lemma BackupAttempts(s: State, now: nat, a: nat)
    requires Linked(s) && a < |s.attempts|
    ensures a < |RestoreBackup(s, now).attempts| && RestoreBackup(s, now).attempts[a] == InvalidateAttempt(s, now, a)
  {
    hide InvalidateAttempt, InvalidateTask;
  }

  lemma BackupKeepsInv(s: State, now: nat)
    requires Inv(s)
    ensures var s' := RestoreBackup(s, now);
            && Inv(s') && Linked(s') && Evolves(s, s') && LiveBackup(s, s', now)
            && forall t :: 0 <= t < |s.tasks| ==> Climbs(s.tasks[t], s'.tasks[t])
  {
    hide NewestUnfinished, Numbered, EventsOk, InvalidateAttempt, RestoreBackup, LiveBackup;
    var s' := RestoreBackup(s, now);
    BackupReachesAll(s, now);
    forall a: nat | a < |s.attempts|
      ensures Grows(s.attempts[a], s'.attempts[a]) && AttemptOk(s'.attempts[a], s'.tasks[s.attempts[a].task])
              && s'.attempts[a].leaseExpiresAt == s.attempts[a].leaseExpiresAt
    {
      BackupAttempt(s, now, a);
      BackupAttempts(s, now, a);
    }
    NoneInFlight(s');
    NumberedFrame(s.attempts, s'.attempts);
    SameEventsKept(s.attempts, s'.attempts, s.events);
    BackupStopsAll(s, s', now);
  }

  lemma NoneInFlight(s: State)
    requires forall t :: 0 <= t < |s.tasks| ==> !InFlight(s.tasks[t].status)
    ensures NewestUnfinished(s)
  {
  }

  lemma BackupStopsAll(s: State, s': State, now: nat)
    requires Linked(s) && Linked(s') && |s'.tasks| == |s.tasks| && |s'.attempts| == |s.attempts|
    requires forall t :: 0 <= t < |s.tasks| ==> s'.tasks[t] == Invalidated(s.tasks[t])
    requires forall a: nat :: a < |s.attempts| ==>
               s'.attempts[a].task == s.attempts[a].task && s'.attempts[a].leaseExpiresAt == s.attempts[a].leaseExpiresAt
    ensures LiveBackup(s, s', now)
  {
    hide IsNewest;
    if LiveOwnsSlot(s, now) {
      forall a | 0 <= a < |s'.attempts| ensures !Honoured(s'.tasks[s'.attempts[a].task], s'.attempts[a], now) {
        var b: nat := a;
        assert s'.attempts[b].task == s.attempts[b].task;
      }
    }
  }

  /** Capabilities of tasks that were not in flight are honoured as before, the others no longer. */
  ghost predicate LiveBackup(s: State, s': State, now: nat)
    requires Linked(s) && Linked(s')
  {
    LiveOwnsSlot(s, now) ==>
      LiveOwnsSlot(s', now)
      && forall a :: 0 <= a < |s'.attempts| ==> !Honoured(s'.tasks[s'.attempts[a].task], s'.attempts[a], now)
  }

  lemma SameEventsKept(attempts: seq<Attempt>, attempts': seq<Attempt>, events: seq<Event>)
    requires EventsOk(attempts, events) && |attempts'| == |attempts|
    requires forall a :: 0 <= a < |attempts| ==> Grows(attempts[a], attempts'[a])
    ensures EventsOk(attempts', events)
  {
    forall i | 0 <= i < |events| ensures EventOk(attempts', events[i]) { assert EventOk(attempts, events[i]); }
  }
}
