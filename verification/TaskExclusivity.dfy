/**
 * A careless reconciliation costs exclusivity itself, not only the ownership that protects it: at the very same
 * instant the task can be handed to a second agent, or another one already works.
 */
module TaskExclusivity {
  import opened Bytes
  import opened TaskModel
  import opened TaskSteps
  import opened TaskInvariants
  import opened TaskPreservation
  import opened TaskOperations
  import opened TaskRuns

  /* ----- one careless reconciliation ----- */

  /** After the expiry that precedes a claim, the reopened task is in the queue and its old agent still honoured. */
  lemma ReopenedKeepsLease(cfg: Config, s: State, now: nat, t: nat, a: nat)
    requires Inv(s) && Owns(s, t, a) && s.tasks[t].status == InterventionRequired && now < s.attempts[a].leaseExpiresAt
    ensures Linked(s) && Inv(Reconcile(s, t).0) && Linked(Reconcile(s, t).0)
    ensures var s1 := Expire(cfg, Reconcile(s, t).0, now);
            && Inv(s1) && Linked(s1) && Owns(s1, t, a)
            && s1.tasks[t].status == Approved && s1.tasks[t].host == s.tasks[t].host
            && now < s1.attempts[a].leaseExpiresAt
            && |s1.attempts| == |s.attempts|
            && forall b :: 0 <= b < |s.attempts| ==> s1.attempts[b].session == s.attempts[b].session
  {
    hide Inv, Keeps, Evolves, LiveOwnsSlot, Catalogue, Stale, OverEager, IsNewest;
    InvIsLinked(s);
    ReconcileKeeps(cfg.hash, s, now, t);
    var s0 := Reconcile(s, t).0;
    InvIsLinked(s0);
    ExpireKeeps(cfg.hash, cfg, s0, now);
    var s1 := Expire(cfg, s0, now);
    KeepsParts(cfg.hash, s0, s1, now, true);
    SameSessions(s0, s1);
    hide Expire;
  }

  lemma SameSessions(s: State, s': State)
    requires Evolves(s, s')
    ensures |s.attempts| <= |s'.attempts|
    ensures forall b :: 0 <= b < |s.attempts| ==> s'.attempts[b].session == s.attempts[b].session
  {
    assert forall b :: 0 <= b < |s.attempts| ==> Grows(s.attempts[b], s'.attempts[b]);
  }

  lemma TwoHonoured(s: State, now: nat, a: nat, b: nat)
    requires Linked(s) && a < |s.attempts| && b < |s.attempts| && a != b
    requires Honoured(s.tasks[s.attempts[a].task], s.attempts[a], now)
    requires Honoured(s.tasks[s.attempts[b].task], s.attempts[b], now)
    ensures !OneHonoured(s, now)
  {
  }

  /** Somebody else holds the slot: expiry left it to an agent with a running lease. */
  lemma SlotHeldElsewhere(cfg: Config, s0: State, now: nat, t: nat, a: nat)
    requires Inv(s0) && Linked(s0) && Inv(Expire(cfg, s0, now)) && Linked(Expire(cfg, s0, now))
    requires var s1 := Expire(cfg, s0, now);
             Owns(s1, t, a) && s1.tasks[t].status == Approved && now < s1.attempts[a].leaseExpiresAt && SlotTaken(s1)
    ensures !OneHonoured(Expire(cfg, s0, now), now)
  {
    var s1 := Expire(cfg, s0, now);
    hide Inv, Expire, IsNewest, OneHonoured;
    var u :| 0 <= u < |s1.tasks| && s1.tasks[u].holdsSlot;
    SlotIsInFlight(s1, u);
    SameTaskCount(cfg, s0, now);
    ExpireIsThorough(cfg, s0, now, u);
    var b: nat :| Working(s1, u, b) && now < s1.attempts[b].leaseExpiresAt;
    TwoHonoured(s1, now, a, b);
  }

  lemma SlotIsInFlight(s: State, u: nat)
    requires Inv(s) && u < |s.tasks| && s.tasks[u].holdsSlot
    ensures InFlight(s.tasks[u].status)
  {
    assert TaskOk(s.tasks[u]);
    hide NewestUnfinished, Numbered, EventsOk, OneSlot, OneTaskPerHost;
  }

  lemma SameTaskCount(cfg: Config, s: State, now: nat)
    requires Linked(s)
    ensures |Expire(cfg, s, now).tasks| == |s.tasks|
  {
  }

  /** The slot is free: a host has one active task, so its next claim is for this very task. */
  lemma FreeSlotIsClaimed(cfg: Config, s: State, now: nat, t: nat, a: nat, session: nat)
    requires Inv(s) && Linked(s) && Owns(s, t, a) && s.tasks[t].status == Approved && now < s.attempts[a].leaseExpiresAt
    requires !SlotTaken(s) && !SessionUsed(s, session)
    ensures var s' := Claim(cfg, s, now, s.tasks[t].host, session, true).0;
            Linked(s') && !OneHonoured(s', now)
  {
    hide NewestUnfinished, Numbered, EventsOk, LastNumber, IsNewest, OneHonoured, SlotTaken, SessionUsed;
    assert Claimable(s, s.tasks[t].host, t);
    assert OldestApproved(s, s.tasks[t].host, |s.tasks|) == Some(t);
    AssignLinked(cfg, s, now, t, session);
    TwoHonoured(Assign(cfg, s, now, t, session), now, a, |s.attempts|);
  }

  /**
   * Reconciling while a lease of the task still runs: right after the expiry that every claim begins with, or right
   * after that claim, two capabilities are honoured at once.
   */
  lemma {:induction false} CarelessCostsExclusivity(cfg: Config, s: State, now: nat, t: nat, session: nat)
    requires Inv(s) && OverEager(s, now, t) && !SessionUsed(s, session)
    ensures Linked(s) && Linked(Reconcile(s, t).0) && t < |s.tasks|
    ensures var s1 := Expire(cfg, Reconcile(s, t).0, now);
            var s2 := Claim(cfg, s1, now, s.tasks[t].host, session, true).0;
            Linked(s2) && !(OneHonoured(s1, now) && OneHonoured(s2, now))
  {
    hide Inv, Linked, Expire, Reconcile, Claim, OneHonoured, SlotTaken, SessionUsed;
    var a := RunningLease(s, now, t);
    ReopenedKeepsLease(cfg, s, now, t, a);
    var s0 := Reconcile(s, t).0;
    var s1 := Expire(cfg, s0, now);
    SessionStillFree(s, s1, session);
    if SlotTaken(s1) {
      SlotHeldElsewhere(cfg, s0, now, t, a);
      TakenClaimsNothing(cfg, s1, now, s.tasks[t].host, session);
    } else {
      FreeSlotIsClaimed(cfg, s1, now, t, a, session);
    }
  }

  lemma RunningLease(s: State, now: nat, t: nat) returns (a: nat)
    requires OverEager(s, now, t)
    ensures Owns(s, t, a) && s.tasks[t].status == InterventionRequired && now < s.attempts[a].leaseExpiresAt
  {
    a :| Owns(s, t, a) && now < s.attempts[a].leaseExpiresAt;
  }

  lemma SessionStillFree(s: State, s': State, session: nat)
    requires |s'.attempts| == |s.attempts|
    requires forall b :: 0 <= b < |s.attempts| ==> s'.attempts[b].session == s.attempts[b].session
    ensures SessionUsed(s', session) <==> SessionUsed(s, session)
  {
  }

  lemma TakenClaimsNothing(cfg: Config, s: State, now: nat, host: nat, session: nat)
    requires SlotTaken(s)
    ensures Claim(cfg, s, now, host, session, true).0 == s
  {
  }

  /* ----- whole runs ----- */

  /** Nothing but expiries and claims, all at one instant: what agents can do before an operator acts again. */
  predicate AtOnce(more: seq<Timed>, now: nat) {
    forall i :: 0 <= i < |more| ==> more[i].now == now && (more[i].op.OpExpire? || more[i].op.OpClaim?)
  }

  /** At the instant of step `n`, after what the agents did then, at most one capability is honoured. */
  ghost predicate ExclusiveAfter(cfg: Config, run: seq<Timed>, n: nat, more: seq<Timed>)
    requires 0 < n <= |run|
  {
    AtOnce(more, run[n - 1].now) ==> OneHonoured(Reached(cfg, run[..n] + more), run[n - 1].now)
  }

  /** After every step, and whatever agents do at that instant, at most one capability is honoured. */
  ghost predicate Exclusive(cfg: Config, run: seq<Timed>) {
    forall n: nat, more: seq<Timed> :: 0 < n <= |run| ==> ExclusiveAfter(cfg, run, n, more)
  }

  lemma OrderedPrefix(run: seq<Timed>, now: nat, n: nat, more: seq<Timed>)
    requires Ordered(run, now) && 0 < n <= |run| && AtOnce(more, run[n - 1].now)
    ensures Ordered(run[..n] + more, run[n - 1].now)
  {
    var all := run[..n] + more;
    forall i | 0 <= i < |all| ensures all[i].now <= run[n - 1].now {
      if i < n - 1 { assert run[i].now <= run[n - 1].now; }
    }
  }

  lemma CarefulPrefix(cfg: Config, run: seq<Timed>, n: nat, more: seq<Timed>, now: nat)
    requires CarefullyReached(cfg, run) && n <= |run| && AtOnce(more, now)
    ensures CarefullyReached(cfg, run[..n] + more)
  {
    hide Inv, OverEager, Run;
    EmptyIsInv();
    var all := run[..n] + more;
    forall i: nat | i < |all| ensures !Careless(Before(cfg, EMPTY, all, i), all[i].now, all[i].op) {
      if i < n {
        assert all[..i] == run[..i];
        assert !Careless(Before(cfg, EMPTY, run, i), run[i].now, run[i].op);
      }
    }
  }

  lemma CarefulIsExclusive(cfg: Config, run: seq<Timed>, now: nat)
    requires Ordered(run, now) && CarefullyReached(cfg, run)
    ensures Exclusive(cfg, run)
  {
    hide Inv, Carefully, OneHonoured, LiveOwnsSlot, Run, Ordered;
    EmptyIsInv();
    forall n: nat, more: seq<Timed> | 0 < n <= |run| ensures ExclusiveAfter(cfg, run, n, more) {
      if AtOnce(more, run[n - 1].now) {
        OrderedPrefix(run, now, n, more);
        CarefulPrefix(cfg, run, n, more, run[n - 1].now);
        LeaseExclusivity(cfg, run[..n] + more, run[n - 1].now);
      }
    }
  }

  function SessionBound(attempts: seq<Attempt>): (n: nat)
    ensures forall a :: 0 <= a < |attempts| ==> attempts[a].session < n
  {
    if attempts == [] then 0
    else
      var rest, last := SessionBound(attempts[..|attempts| - 1]), attempts[|attempts| - 1];
      Max(rest, last.session + 1)
  }

  lemma FreshSession(s: State)
    ensures !SessionUsed(s, SessionBound(s.attempts))
  {
  }

  lemma ReachedSnoc(cfg: Config, run: seq<Timed>, e: Timed)
    ensures Reached(cfg, run + [e]) == Step(cfg, Reached(cfg, run), e.now, e.op).0
  {
    hide Inv, Step;
    EmptyIsInv();
    assert (run + [e])[..|run|] == run;
  }

  /** What agents do at the instant of a careless step to end with two honoured capabilities. */
  lemma CarelessEndangers(cfg: Config, run: seq<Timed>, i: nat) returns (more: seq<Timed>)
    requires i < |run| && Inv(EMPTY) && Careless(Before(cfg, EMPTY, run, i), run[i].now, run[i].op)
    ensures !ExclusiveAfter(cfg, run, i + 1, more)
  {
    hide Inv, Linked, OneHonoured, OverEager, Reached, Run, Expire, Reconcile, Claim, SessionUsed;
    var s, now, t := Before(cfg, EMPTY, run, i), run[i].now, run[i].op.task;
    var session := SessionBound(s.attempts);
    FreshSession(s);
    CarelessCostsExclusivity(cfg, s, now, t, session);
    var e1, e2 := At(now, OpExpire), At(now, OpClaim(s.tasks[t].host, session, true));
    ReachedBefore(cfg, run, i);
    assert run[..i] + [run[i]] == run[..i + 1];
    ReachedSnoc(cfg, run[..i], run[i]);
    ReachedSnoc(cfg, run[..i + 1], e1);
    ReachedSnoc(cfg, run[..i + 1] + [e1], e2);
    assert run[..i + 1] + [e1] + [e2] == run[..i + 1] + [e1, e2];
    more := if ExclusiveAfter(cfg, run, i + 1, [e1]) then [e1, e2] else [e1];
  }

  lemma ReachedBefore(cfg: Config, run: seq<Timed>, i: nat)
    requires i <= |run| && Inv(EMPTY)
    ensures Before(cfg, EMPTY, run, i) == Reached(cfg, run[..i])
  {
  }

  /**
   * Exactness over whole runs: a run leaves at most one honoured capability at every instant, whatever the agents do
   * at that instant, if and only if it reconciles no task that has a running lease.
   */
  lemma {:induction false} CarelessnessIsExact(cfg: Config, run: seq<Timed>, now: nat)
    requires Ordered(run, now)
    ensures CarefullyReached(cfg, run) <==> Exclusive(cfg, run)
  {
    hide Inv, Ordered, ExclusiveAfter, Careless, Run;
    EmptyIsInv();
    if CarefullyReached(cfg, run) {
      CarefulIsExclusive(cfg, run, now);
    } else {
      var i: nat :| i < |run| && Careless(Before(cfg, EMPTY, run, i), run[i].now, run[i].op);
      var more := CarelessEndangers(cfg, run, i);
    }
  }
}
