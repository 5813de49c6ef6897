/** Every transaction keeps the invariant, and how rows may move across one transaction. */
module TaskPreservation {
  import opened Bytes
  import opened Storage
  import opened TaskModel
  import opened TaskSteps
  import opened TaskInvariants

  /** Rows are never dropped, attempts only grow, the event log only gets longer. */
  ghost predicate Evolves(s: State, s': State) {
    && |s.tasks| <= |s'.tasks| && |s.attempts| <= |s'.attempts| && |s.images| <= |s'.images|
    && (forall t :: 0 <= t < |s.tasks| ==> SameTask(s.tasks[t], s'.tasks[t]))
    && (forall a :: 0 <= a < |s.attempts| ==> Grows(s.attempts[a], s'.attempts[a]))
    && s.events <= s'.events
  }

  /** Every task climbs and no cancellation is taken back. */
  ghost predicate Advances(s: State, s': State) {
    && Evolves(s, s')
    && forall t :: 0 <= t < |s.tasks| ==> Climbs(s.tasks[t], s'.tasks[t]) && StaysCancelled(s.tasks[t], s'.tasks[t])
  }

  lemma EvolvesTransitive(s: State, s1: State, s2: State)
    requires Evolves(s, s1) && Evolves(s1, s2)
    ensures Evolves(s, s2)
  {
    assert forall a :: 0 <= a < |s.attempts| ==> Grows(s.attempts[a], s1.attempts[a]) && Grows(s1.attempts[a], s2.attempts[a]);
  }

  /* ----- lease ownership ----- */

  /** Every capability that is still honoured belongs to the newest attempt of a task in flight. */
  ghost predicate LiveOwnsSlot(s: State, now: nat)
    requires Linked(s)
  {
    forall a :: 0 <= a < |s.attempts| && Honoured(s.tasks[s.attempts[a].task], s.attempts[a], now) ==>
                  InFlight(s.tasks[s.attempts[a].task].status) && IsNewest(s.attempts, a)
  }

  lemma CommitAdvances(s: State, now: nat, t: nat, a: nat, r': Rows)
    requires Inv(s) && Owns(s, t, a) && SoundChange(now, a, RowsOf(s, t, a), r')
    ensures Linked(Commit(s, t, a, r')) && Advances(s, Commit(s, t, a, r'))
    ensures LiveOwnsSlot(s, now) ==> LiveOwnsSlot(Commit(s, t, a, r'), now)
  {
    hide Inv, TaskOk, AttemptOk, EventsContinue;
    InvIsLinked(s);
    if LiveOwnsSlot(s, now) { CommitKeepsOwners(s, now, t, a, r'); }
  }

  lemma InFlightAfter(now: nat, a: nat, r: Rows, r': Rows)
    requires SoundChange(now, a, r, r') && TaskOk(r.task) && InFlight(r.task.status)
    ensures !Closed(r'.task.status) ==> InFlight(r'.task.status)
  {
  }

  lemma CommitKeepsOwners(s: State, now: nat, t: nat, a: nat, r': Rows)
    requires Inv(s) && Owns(s, t, a) && SoundChange(now, a, RowsOf(s, t, a), r') && LiveOwnsSlot(s, now)
    ensures Linked(Commit(s, t, a, r')) && LiveOwnsSlot(Commit(s, t, a, r'), now)
  {
    hide Inv, AttemptOk, EventsContinue, TaskOk, IsNewest;
    InvIsLinked(s);
    RowsAreOk(s, t, a);
    var s' := Commit(s, t, a, r');
    NewestInCommit(s, t, a, r');
    if InFlight(s.tasks[t].status) { InFlightAfter(now, a, RowsOf(s, t, a), r'); }
    forall b | 0 <= b < |s'.attempts| && Honoured(s'.tasks[s'.attempts[b].task], s'.attempts[b], now)
      ensures InFlight(s'.tasks[s'.attempts[b].task].status) && IsNewest(s'.attempts, b)
    {
      HonouredBefore(s, now, t, a, r', b);
    }
  }

  lemma HonouredBefore(s: State, now: nat, t: nat, a: nat, r': Rows, b: nat)
    requires Linked(s) && Owns(s, t, a) && SoundChange(now, a, RowsOf(s, t, a), r') && b < |s.attempts|
    requires var s' := Commit(s, t, a, r'); s'.attempts[b].task == s.attempts[b].task && Honoured(s'.tasks[s'.attempts[b].task], s'.attempts[b], now)
    ensures Honoured(s.tasks[s.attempts[b].task], s.attempts[b], now)
  {
  }

  lemma NewestSame(attempts: seq<Attempt>, attempts': seq<Attempt>, b: nat)
    requires |attempts'| == |attempts| && forall c :: 0 <= c < |attempts| ==> attempts'[c].task == attempts[c].task
    ensures IsNewest(attempts', b) <==> IsNewest(attempts, b)
  {
  }

  lemma NewestInCommit(s: State, t: nat, a: nat, r': Rows)
    requires Linked(s) && Owns(s, t, a) && r'.attempt.task == t
    ensures forall b: nat :: b < |s.attempts| ==> (IsNewest(Commit(s, t, a, r').attempts, b) <==> IsNewest(s.attempts, b))
    ensures forall b: nat :: b < |s.attempts| ==> Commit(s, t, a, r').attempts[b].task == s.attempts[b].task
  {
    hide IsNewest;
    var attempts := Commit(s, t, a, r').attempts;
    forall b: nat | b < |s.attempts| ensures IsNewest(attempts, b) <==> IsNewest(s.attempts, b) {
      NewestSame(s.attempts, attempts, b);
    }
  }

  /* ----- catalogue and store ----- */

  predicate CaptureOf(s: State, t: nat, i: nat) {
    t < |s.tasks| && s.tasks[t].operation == Capture && s.tasks[t].image == i
  }

  predicate InUse(image: Image) { image.status == ImageStatus.Ready && image.deletedAt.None? }

  /** A ready image has the manifest its publication was verified against. */
  predicate ReadyOk(h: Hash, s: State, i: nat)
    requires i < |s.images|
  {
    s.images[i].status == ImageStatus.Ready ==>
      && s.images[i].manifest.Some? && s.images[i].manifestSha256 == Some(h(s.images[i].manifest.value.text))
      && s.images[i].manifest.value.imageId == i && s.images[i].manifest.value.supported
      && WellFormedManifest(s.images[i].manifest.value)
      && (i in s.store.published ==> s.images[i].verifiedAt.Some? && Matches(h, s.images[i].manifest.value, s.store.published[i]))
  }

  /** A capture that is pending is capturing its image; its image is no draft, and ready only once it succeeded. */
  predicate CapturesMatch(s: State)
    requires Linked(s)
  {
    forall t :: 0 <= t < |s.tasks| && s.tasks[t].operation == Capture ==>
                  && (s.images[s.tasks[t].image].status == ImageStatus.Capturing <==> Pending(s.tasks[t]))
                  && s.images[s.tasks[t].image].status != ImageStatus.Draft
                  && (s.images[s.tasks[t].image].status == ImageStatus.Ready ==> s.tasks[t].status == Succeeded)
  }

  /** Restores and clones work on ready images; no active task on a deleted one. */
  predicate UsesMatch(s: State)
    requires Linked(s)
  {
    && (forall t :: 0 <= t < |s.tasks| && s.tasks[t].operation != Capture ==>
          s.images[s.tasks[t].image].status == ImageStatus.Ready)
    && forall t :: 0 <= t < |s.tasks| && Active(s.tasks[t].status) ==> s.images[s.tasks[t].image].deletedAt.None?
  }

  predicate OneCapturePerImage(s: State) {
    forall t, u :: 0 <= t < u < |s.tasks| && s.tasks[t].operation == Capture && s.tasks[u].operation == Capture ==>
                     s.tasks[t].image != s.tasks[u].image
  }

  ghost predicate EveryImageCaptured(s: State) {
    forall i: nat :: i < |s.images| && s.images[i].status != ImageStatus.Draft ==> exists t :: CaptureOf(s, t, i)
  }

  /** Task rows agree with the status of the image each works on. */
  ghost predicate TasksMatchImages(s: State)
    requires Linked(s)
  {
    CapturesMatch(s) && UsesMatch(s) && OneCapturePerImage(s) && EveryImageCaptured(s)
  }

  /** Published directories are exactly the ready images that are not deleted, with verified content. */
  ghost predicate StoreMatchesImages(h: Hash, s: State) {
    && (forall i: nat :: i in s.store.published <==> i < |s.images| && InUse(s.images[i]))
    && (forall i: nat :: i < |s.images| ==> ReadyOk(h, s, i))
  }

  ghost predicate Catalogue(h: Hash, s: State)
    requires Linked(s)
  {
    TasksMatchImages(s) && StoreMatchesImages(h, s)
  }

  ghost function CapturerOf(s: State, i: nat): (t: nat)
    requires Linked(s) && TasksMatchImages(s) && i < |s.images| && s.images[i].status != ImageStatus.Draft
    ensures CaptureOf(s, t, i)
  {
    var t :| CaptureOf(s, t, i); t
  }

  lemma CommitStillCaptured(s: State, t: nat, a: nat, r': Rows)
    requires Linked(s) && TasksMatchImages(s) && Owns(s, t, a) && SameTask(s.tasks[t], r'.task)
    requires s.images[s.tasks[t].image].status == ImageStatus.Draft ==> r'.image.status == ImageStatus.Draft
    ensures EveryImageCaptured(Commit(s, t, a, r'))
  {
    hide CapturesMatch, UsesMatch, OneCapturePerImage;
    var s' := Commit(s, t, a, r');
    forall i: nat | i < |s'.images| && s'.images[i].status != ImageStatus.Draft ensures exists u :: CaptureOf(s', u, i) {
      assert CaptureOf(s', CapturerOf(s, i), i);
    }
  }

  lemma CommitKeepsTasks(s: State, now: nat, t: nat, a: nat, r': Rows)
    requires Linked(s) && TasksMatchImages(s) && Owns(s, t, a) && TaskOk(s.tasks[t])
    requires SoundChange(now, a, RowsOf(s, t, a), r') && ImageFollows(RowsOf(s, t, a), r')
    ensures TasksMatchImages(Commit(s, t, a, r'))
  {
    hide TaskOk, AttemptOk, EventsContinue, Grows, EveryImageCaptured, Pending, Active;
    ActiveBefore(now, a, RowsOf(s, t, a), r');
    CommitStillCaptured(s, t, a, r');
  }

  lemma ActiveBefore(now: nat, a: nat, r: Rows, r': Rows)
    requires SoundChange(now, a, r, r') && TaskOk(r.task)
    ensures Active(r'.task.status) ==> Active(r.task.status)
  {
  }

  lemma CommitKeepsStore(h: Hash, s: State, t: nat, a: nat, r': Rows)
    requires Linked(s) && StoreMatchesImages(h, s) && Owns(s, t, a) && ImageFollows(RowsOf(s, t, a), r')
    ensures StoreMatchesImages(h, Commit(s, t, a, r'))
  {
    hide Matches, WellFormedManifest, Pending;
    var s' := Commit(s, t, a, r');
    forall i: nat | i < |s'.images| ensures ReadyOk(h, s', i) { assert ReadyOk(h, s, i); }
  }

  lemma CommitKeepsCatalogue(h: Hash, s: State, now: nat, t: nat, a: nat, r': Rows)
    requires Linked(s) && Catalogue(h, s) && Owns(s, t, a) && TaskOk(s.tasks[t])
    requires SoundChange(now, a, RowsOf(s, t, a), r') && ImageFollows(RowsOf(s, t, a), r')
    ensures Catalogue(h, Commit(s, t, a, r'))
  {
    hide TasksMatchImages, StoreMatchesImages, SoundChange, ImageFollows, TaskOk;
    SoundIsLinked(s, now, t, a, r');
    CommitKeepsTasks(s, now, t, a, r');
    CommitKeepsStore(h, s, t, a, r');
  }

  lemma SoundIsLinked(s: State, now: nat, t: nat, a: nat, r': Rows)
    requires Linked(s) && Owns(s, t, a) && SoundChange(now, a, RowsOf(s, t, a), r')
    ensures Linked(Commit(s, t, a, r'))
  {
  }

  /* ----- one transaction ----- */

  /** What a transaction made of sound commits guarantees; only a calm one keeps the catalogue. */
  ghost predicate Keeps(h: Hash, s: State, s': State, now: nat, calm: bool) {
    && Linked(s) && Inv(s') && Advances(s, s')
    && (LiveOwnsSlot(s, now) ==> LiveOwnsSlot(s', now))
    && (calm && Catalogue(h, s) ==> Catalogue(h, s'))
  }

  /** Agent requests never send a task to intervention nor touch one that is there. */
  ghost predicate Quiet(s: State, s': State)
    requires Linked(s)
  {
    && |s'.attempts| == |s.attempts| && |s'.tasks| == |s.tasks|
    && forall a :: 0 <= a < |s.attempts| && s'.attempts[a].task == s.attempts[a].task
                   && s'.tasks[s.attempts[a].task].status == InterventionRequired ==>
                     && s.tasks[s.attempts[a].task].status == InterventionRequired
                     && s'.attempts[a].leaseExpiresAt == s.attempts[a].leaseExpiresAt
  }

  ghost predicate Serves(h: Hash, s: State, s': State, now: nat, calm: bool) {
    Keeps(h, s, s', now, calm) && Quiet(s, s')
  }

  lemma RowsAreOk(s: State, t: nat, a: nat)
    requires Inv(s) && Owns(s, t, a)
    ensures RowsOk(t, a, RowsOf(s, t, a)) && TaskOk(s.tasks[t])
  {
  }

  lemma CommitKeeps(h: Hash, s: State, now: nat, t: nat, a: nat, r': Rows)
    requires Inv(s) && Owns(s, t, a) && SoundChange(now, a, RowsOf(s, t, a), r') && ImageFollows(RowsOf(s, t, a), r')
    ensures Keeps(h, s, Commit(s, t, a, r'), now, true)
  {
    hide *;
    InvIsLinked(s);
    CommitKeepsInv(s, now, t, a, r');
    InvIsLinked(Commit(s, t, a, r'));
    CommitAdvances(s, now, t, a, r');
    RowsAreOk(s, t, a);
    if Catalogue(h, s) { CommitKeepsCatalogue(h, s, now, t, a, r'); }
    KeepsIntro(h, s, Commit(s, t, a, r'), now);
  }

  lemma KeepsIntro(h: Hash, s: State, s': State, now: nat)
    requires Linked(s) && Inv(s') && Advances(s, s')
    requires LiveOwnsSlot(s, now) ==> LiveOwnsSlot(s', now)
    requires Catalogue(h, s) ==> Catalogue(h, s')
    ensures Keeps(h, s, s', now, true)
  {
  }

  lemma CommitServes(h: Hash, s: State, now: nat, t: nat, a: nat, r': Rows)
    requires Inv(s) && Owns(s, t, a) && SoundChange(now, a, RowsOf(s, t, a), r') && ImageFollows(RowsOf(s, t, a), r')
    requires r'.task.status != InterventionRequired
    ensures Serves(h, s, Commit(s, t, a, r'), now, true)
  {
    CommitKeeps(h, s, now, t, a, r');
    hide Keeps;
  }

  lemma ServesAnyway(h: Hash, s: State, s': State, now: nat, calm: bool)
    requires Serves(h, s, s', now, true)
    ensures Serves(h, s, s', now, calm)
  {
  }

  lemma NothingServes(h: Hash, s: State, now: nat)
    requires Inv(s)
    ensures Serves(h, s, s, now, true)
  {
  }

  lemma AdvancesCompose(s: State, s1: State, s2: State)
    requires Advances(s, s1) && Advances(s1, s2)
    ensures Advances(s, s2)
  {
    EvolvesTransitive(s, s1, s2);
    forall t | 0 <= t < |s.tasks| ensures Climbs(s.tasks[t], s2.tasks[t]) && StaysCancelled(s.tasks[t], s2.tasks[t]) {
      assert Climbs(s.tasks[t], s1.tasks[t]) && Climbs(s1.tasks[t], s2.tasks[t]);
    }
    hide Evolves;
  }

  lemma KeepsTransitive(h: Hash, s: State, s1: State, s2: State, now: nat, calm: bool)
    requires Keeps(h, s, s1, now, calm) && Keeps(h, s1, s2, now, calm)
    ensures Keeps(h, s, s2, now, calm)
  {
    hide Inv, LiveOwnsSlot, Catalogue, Evolves, Advances, Linked;
    AdvancesCompose(s, s1, s2);
    InvIsLinked(s1);
    InvIsLinked(s2);
  }

  lemma QuietCompose(s: State, s1: State, s2: State)
    requires Linked(s) && Linked(s1) && Evolves(s, s1) && Quiet(s, s1) && Quiet(s1, s2)
    ensures Quiet(s, s2)
  {
    assert forall a :: 0 <= a < |s.attempts| ==> Grows(s.attempts[a], s1.attempts[a]);
  }

  lemma ServesTransitive(h: Hash, s: State, s1: State, s2: State, now: nat, calm: bool)
    requires Serves(h, s, s1, now, calm) && Serves(h, s1, s2, now, calm)
    ensures Serves(h, s, s2, now, calm)
  {
    hide Inv, LiveOwnsSlot, Catalogue, Evolves, Quiet, Linked;
    KeepsTransitive(h, s, s1, s2, now, calm);
    InvIsLinked(s1);
    QuietCompose(s, s1, s2);
  }

  /** Rows of tasks and attempts are all the invariant speaks of, besides foreign keys. */
  lemma SameRowsKeepInv(s: State, s': State)
    requires Inv(s) && s'.tasks == s.tasks && s'.attempts == s.attempts && s'.events == s.events && |s.images| <= |s'.images|
    ensures Inv(s') && Linked(s') && Evolves(s, s')
  {
    SameWorkers(s, s');
    hide NewestUnfinished, IsNewest;
  }

  lemma SameWorkers(s: State, s': State)
    requires NewestUnfinished(s) && s'.tasks == s.tasks && s'.attempts == s.attempts
    ensures NewestUnfinished(s')
  {
    forall t: nat | t < |s'.tasks| && InFlight(s'.tasks[t].status) ensures exists a :: Working(s', t, a) {
      var a :| Working(s, t, a);
      assert Working(s', t, a);
    }
  }

  lemma SameRowsSameOwners(s: State, s': State, now: nat)
    requires Linked(s) && Linked(s') && s'.tasks == s.tasks && s'.attempts == s.attempts
    ensures LiveOwnsSlot(s, now) <==> LiveOwnsSlot(s', now)
    ensures Evolves(s, s') ==> Advances(s, s') && Quiet(s, s')
  {
    hide IsNewest;
  }

  /** Whatever leaves images and publications alone leaves them in agreement. */
  lemma SameImagesSameStore(h: Hash, s: State, s': State)
    requires s'.images == s.images && s'.store.published == s.store.published && StoreMatchesImages(h, s)
    ensures StoreMatchesImages(h, s')
  {
    hide Matches, WellFormedManifest;
    forall i: nat | i < |s'.images| ensures ReadyOk(h, s', i) { assert ReadyOk(h, s, i); }
  }

  lemma InvIsLinked(s: State)
    requires Inv(s)
    ensures Linked(s)
  {
  }

  /* ----- expiry ----- */

  /** The loop so far: leases untouched, and a task is either as it was or needs intervention. */
  ghost predicate Expiring(cfg: Config, s: State, s': State, now: nat, n: nat)
    requires Linked(s)
  {
    && SameShape(s, s') && Linked(s') && s'.store == s.store
    && (forall a :: 0 <= a < |s.attempts| ==> s'.attempts[a].leaseExpiresAt == s.attempts[a].leaseExpiresAt)
    && (forall t :: 0 <= t < |s.tasks| ==>
          s'.tasks[t] == s.tasks[t] || (s'.tasks[t].status == InterventionRequired && InFlight(s.tasks[t].status)))
    && forall a: nat :: a < n <= |s.attempts| && Stale(cfg, s, now, a) ==>
                          s'.tasks[s.attempts[a].task].status == InterventionRequired
  }

  lemma ExpireOneShape(cfg: Config, s: State, before: State, now: nat, a: nat, r': Rows)
    requires Linked(s) && a < |s.attempts| && Expiring(cfg, s, before, now, a)
    requires InFlight(s.tasks[s.attempts[a].task].status)
    requires r'.task.status == InterventionRequired && r'.task.image == s.tasks[s.attempts[a].task].image
    requires r'.attempt.task == s.attempts[a].task && r'.attempt.leaseExpiresAt == s.attempts[a].leaseExpiresAt
    ensures Expiring(cfg, s, Commit(before, s.attempts[a].task, a, r'), now, a + 1)
  {
    hide IsNewest;
  }

  lemma KeepsIsInv(h: Hash, s: State, s': State, now: nat, calm: bool)
    requires Keeps(h, s, s', now, calm)
    ensures Inv(s') && Linked(s')
  {
  }

  lemma ExpireOneKeeps(h: Hash, cfg: Config, s: State, before: State, now: nat, a: nat)
    requires Inv(s) && a < |s.attempts| && Expiring(cfg, s, before, now, a) && Keeps(h, s, before, now, true) && Stale(cfg, s, now, a)
    ensures var t := s.attempts[a].task;
            var s' := Commit(before, t, a, ExpireRows(now, t, a, RowsOf(before, t, a)));
            Expiring(cfg, s, s', now, a + 1) && Keeps(h, s, s', now, true)
  {
    hide Inv, Evolves, Advances, LiveOwnsSlot, Catalogue, IsNewest;
    KeepsIsInv(h, s, before, now, true);
    InvIsLinked(s);
    InvIsLinked(before);
    var t := s.attempts[a].task;
    var r := RowsOf(before, t, a);
    var r' := ExpireRows(now, t, a, r);
    RowsAreOk(before, t, a);
    ExpireIsSound(now, t, a, r);
    hide ExpireRows;
    ExpireOneShape(cfg, s, before, now, a, r');
    hide Expiring;
    CommitKeeps(h, before, now, t, a, r');
    KeepsTransitive(h, s, before, Commit(before, t, a, r'), now, true);
  }

  lemma ExpireNone(h: Hash, cfg: Config, s: State, now: nat)
    requires Inv(s)
    ensures Expiring(cfg, s, s, now, 0) && Keeps(h, s, s, now, true)
  {
    NothingServes(h, s, now);
  }

  lemma ExpireSkip(cfg: Config, s: State, s': State, now: nat, a: nat)
    requires Linked(s) && a < |s.attempts| && Expiring(cfg, s, s', now, a) && !Stale(cfg, s, now, a)
    ensures Expiring(cfg, s, s', now, a + 1)
  {
    hide Stale;
  }

  lemma ExpireFirstZero(cfg: Config, s: State, now: nat)
    requires Linked(s)
    ensures ExpireFirst(cfg, s, now, 0) == s
  {
  }

  lemma ExpireFirstUnfolds(cfg: Config, s: State, now: nat, n: nat)
    requires Linked(s) && 0 < n <= |s.attempts|
    ensures var before, t := ExpireFirst(cfg, s, now, n - 1), s.attempts[n - 1].task;
            ExpireFirst(cfg, s, now, n) ==
            if Stale(cfg, s, now, n - 1) then Commit(before, t, n - 1, ExpireRows(now, t, n - 1, RowsOf(before, t, n - 1)))
            else before
  {
  }

  lemma {:induction false} ExpireFirstKeeps(h: Hash, cfg: Config, s: State, now: nat, n: nat)
    requires Inv(s) && n <= |s.attempts|
    ensures var s' := ExpireFirst(cfg, s, now, n); Expiring(cfg, s, s', now, n) && Keeps(h, s, s', now, true)
  {
    hide *;
    InvIsLinked(s);
    if n == 0 {
      ExpireNone(h, cfg, s, now);
      ExpireFirstZero(cfg, s, now);
    } else {
      ExpireFirstKeeps(h, cfg, s, now, n - 1);
      ExpireFirstUnfolds(cfg, s, now, n);
      if Stale(cfg, s, now, n - 1) {
        ExpireOneKeeps(h, cfg, s, ExpireFirst(cfg, s, now, n - 1), now, n - 1);
      } else {
        ExpireSkip(cfg, s, ExpireFirst(cfg, s, now, n - 1), now, n - 1);
      }
    }
  }

  lemma ExpireKeeps(h: Hash, cfg: Config, s: State, now: nat)
    requires Inv(s)
    ensures var s' := Expire(cfg, s, now); Expiring(cfg, s, s', now, |s.attempts|) && Keeps(h, s, s', now, true)
  {
    ExpireFirstKeeps(h, cfg, s, now, |s.attempts|);
  }

  /** Expiry changes exactly the tasks the query selects. */
  lemma {:induction false} ExpireSelects(cfg: Config, s: State, now: nat, t: nat)
    requires Inv(s) && t < |s.tasks|
    ensures Expire(cfg, s, now).tasks[t] != s.tasks[t] <==> exists a: nat :: Owns(s, t, a) && Stale(cfg, s, now, a)
  {
    ExpireKeeps(cfg.hash, cfg, s, now);
    hide Keeps, IsNewest;
    if exists a: nat :: Owns(s, t, a) && Stale(cfg, s, now, a) {
      var a: nat :| Owns(s, t, a) && Stale(cfg, s, now, a);
    } else {
      UntouchedTask(cfg, s, now, |s.attempts|, t);
    }
  }

  /** After expiry, a task still in flight is being worked on under a lease that has not elapsed. */
  lemma {:induction false} ExpireIsThorough(cfg: Config, s: State, now: nat, t: nat)
    requires Inv(s) && t < |s.tasks| && InFlight(Expire(cfg, s, now).tasks[t].status)
    ensures var s' := Expire(cfg, s, now); exists a: nat :: Working(s', t, a) && now < s'.attempts[a].leaseExpiresAt
  {
    var s' := Expire(cfg, s, now);
    ExpireKeeps(cfg.hash, cfg, s, now);
    var a := WorkingOn(s', t);
    NewestInShape(s, s', a);
    hide Keeps, Inv, IsNewest;
    assert Owns(s, t, a) && !Stale(cfg, s, now, a);
    assert Working(s', t, a) && now < s'.attempts[a].leaseExpiresAt;
  }

  lemma WorkingOn(s: State, t: nat) returns (a: nat)
    requires Inv(s) && t < |s.tasks| && InFlight(s.tasks[t].status)
    ensures Working(s, t, a)
  {
    a :| Working(s, t, a);
  }

  lemma NewestInShape(s: State, s': State, a: nat)
    requires SameShape(s, s')
    ensures IsNewest(s'.attempts, a) <==> IsNewest(s.attempts, a)
  {
  }

  lemma {:induction false} UntouchedTask(cfg: Config, s: State, now: nat, n: nat, t: nat)
    requires Linked(s) && t < |s.tasks| && n <= |s.attempts|
    requires forall a: nat :: a < n && Owns(s, t, a) ==> !Stale(cfg, s, now, a)
    ensures ExpireFirst(cfg, s, now, n).tasks[t] == s.tasks[t]
  {
    if n > 0 { UntouchedTask(cfg, s, now, n - 1, t); }
  }

}
