/** Active/passive coordinator lease with fencing tokens (pyfog/coordinator.py). Clocks are whatever callers pass. */
module Fencing {
  import opened Bytes

  const MAX_LEASE_SECONDS: int := 300
  const MAX_HOLDER_LENGTH: nat := 128

  datatype LeaseRow = LeaseRow(holder: string, term: nat, token: nat, expiresAt: Option<int>)

  datatype Lease = Lease(holder: string, term: nat, token: nat, expiresAt: int)

  datatype LeaseError = BadHolder | BadDuration | LostToken | Expired | NoLease

  datatype Grant = Granted(lease: Lease) | Passive | Refused(error: LeaseError)

  predicate HolderChar(c: char) {
    'A' <= c <= 'Z' || 'a' <= c <= 'z' || '0' <= c <= '9' || c == '.' || c == '_' || c == ':' || c == '-'
  }

  predicate ValidHolder(holder: string) {
    1 <= |holder| <= MAX_HOLDER_LENGTH && forall i :: 0 <= i < |holder| ==> HolderChar(holder[i])
  }

  predicate ValidDuration(seconds: int) { 0 < seconds <= MAX_LEASE_SECONDS }

  function LeaseOf(row: LeaseRow): Grant {
    if row.expiresAt.None? then Refused(NoLease) else Granted(Lease(row.holder, row.term, row.token, row.expiresAt.value))
  }

  function Acquire(row: Option<LeaseRow>, holder: string, seconds: int, current: int): (r: (Option<LeaseRow>, Grant)) {
    if !ValidHolder(holder) then (row, Refused(BadHolder))
    else if !ValidDuration(seconds) then (row, Refused(BadDuration))
    else
      match row
      case None =>
        var row' := LeaseRow(holder, 1, 1, Some(current + seconds));
        (Some(row'), LeaseOf(row'))
      case Some(x) =>
        if x.expiresAt.Some? && x.expiresAt.value > current && x.holder != holder then (row, Passive)
        else
          var owned := if x.holder != holder then LeaseRow(holder, x.term + 1, x.token + 1, x.expiresAt) else x;
          var row' := owned.(expiresAt := Some(current + seconds));
          (Some(row'), LeaseOf(row'))
  }

  predicate Owned(row: Option<LeaseRow>, lease: Lease) {
    row.Some? && row.value.holder == lease.holder && row.value.token == lease.token
  }

  function Renew(row: Option<LeaseRow>, lease: Lease, seconds: int, current: int): (r: (Option<LeaseRow>, Grant)) {
    if !Owned(row, lease) then (row, Refused(LostToken))
    else if row.value.expiresAt.None? || row.value.expiresAt.value <= current then (row, Refused(Expired))
    else if !ValidDuration(seconds) then (row, Refused(BadDuration))
    else
      var row' := row.value.(expiresAt := Some(current + seconds));
      (Some(row'), LeaseOf(row'))
  }

  /** `assert_fenced` lets the mutation through. */
  predicate Fenced(row: Option<LeaseRow>, lease: Lease, current: int) {
    Owned(row, lease) && row.value.expiresAt.Some? && row.value.expiresAt.value > current
  }

  function Release(row: Option<LeaseRow>, lease: Lease, current: int): (r: (Option<LeaseRow>, bool)) {
    if !Owned(row, lease) then (row, false)
    else (Some(LeaseRow("", row.value.term + 1, row.value.token + 1, Some(current))), true)
  }

  /** The lease row, updated in place. */
  class LeaseTable {
    var present: bool
    var holderId: string
    var term: nat
    var fencingToken: nat
    var leaseExpiresAt: Option<int>

    constructor ()
      ensures Contents() == None
    {
      present, holderId, term, fencingToken, leaseExpiresAt := false, "", 0, 0, None;
    }

    function Contents(): Option<LeaseRow>
      reads this
    {
      if present then Some(LeaseRow(holderId, term, fencingToken, leaseExpiresAt)) else None
    }

    method LeaseFromRow() returns (grant: Grant)
      requires present
      ensures grant == LeaseOf(Contents().value)
    {
      if leaseExpiresAt.None? { return Refused(NoLease); }
      return Granted(Lease(holderId, term, fencingToken, leaseExpiresAt.value));
    }

    method AcquireLease(holder: string, seconds: int, current: int) returns (grant: Grant)
      modifies this
      ensures (Contents(), grant) == Acquire(old(Contents()), holder, seconds, current)
    {
      if !ValidHolder(holder) { return Refused(BadHolder); }
      if !ValidDuration(seconds) { return Refused(BadDuration); }
      var expires := current + seconds;
      if !present {
        present, holderId, term, fencingToken, leaseExpiresAt := true, holder, 1, 1, Some(expires);
        grant := LeaseFromRow();
        return;
      }
      if leaseExpiresAt.Some? && leaseExpiresAt.value > current && holderId != holder { return Passive; }
      if holderId != holder {
        term := term + 1;
        fencingToken := fencingToken + 1;
        holderId := holder;
      }
      leaseExpiresAt := Some(expires);
      grant := LeaseFromRow();
    }

    method RenewLease(lease: Lease, seconds: int, current: int) returns (grant: Grant)
      modifies this
      ensures (Contents(), grant) == Renew(old(Contents()), lease, seconds, current)
    {
      if !present || holderId != lease.holder || fencingToken != lease.token { return Refused(LostToken); }
      if leaseExpiresAt.None? || leaseExpiresAt.value <= current { return Refused(Expired); }
      if !ValidDuration(seconds) { return Refused(BadDuration); }
      leaseExpiresAt := Some(current + seconds);
      grant := LeaseFromRow();
    }

    method AssertFenced(lease: Lease, current: int) returns (ok: bool)
      ensures ok <==> Fenced(Contents(), lease, current)
      ensures ok <==> && present && holderId == lease.holder && fencingToken == lease.token
                      && leaseExpiresAt.Some? && current < leaseExpiresAt.value
    {
      return !(!present || holderId != lease.holder || fencingToken != lease.token
               || leaseExpiresAt.None? || leaseExpiresAt.value <= current);
    }

    method ReleaseLease(lease: Lease, current: int) returns (ok: bool)
      modifies this
      ensures (Contents(), ok) == Release(old(Contents()), lease, current)
    {
      if !present || holderId != lease.holder || fencingToken != lease.token { return false; }
      holderId := "";
      term := term + 1;
      fencingToken := fencingToken + 1;
      leaseExpiresAt := Some(current);
      return true;
    }
  }

  /* ----- runs: any callers, any clocks, any lease values, genuine or not ----- */

  datatype Step =
    | Acquiring(who: string, seconds: int, at: int)
    | Renewing(lease: Lease, seconds: int, at: int)
    | Mutating(lease: Lease, at: int)
    | Releasing(lease: Lease, at: int)

  /** The row, every lease ever handed out, and the tokens of the mutations that were let through. */
  datatype World = World(row: Option<LeaseRow>, issued: seq<Lease>, log: seq<nat>)

  const START: World := World(None, [], [])

  function Issue(w: World, r: (Option<LeaseRow>, Grant)): World {
    World(r.0, if r.1.Granted? then w.issued + [r.1.lease] else w.issued, w.log)
  }

  function Next(w: World, step: Step): World {
    match step
    case Acquiring(holder, seconds, current) => Issue(w, Acquire(w.row, holder, seconds, current))
    case Renewing(lease, seconds, current) => Issue(w, Renew(w.row, lease, seconds, current))
    case Mutating(lease, current) => if Fenced(w.row, lease, current) then w.(log := w.log + [lease.token]) else w
    case Releasing(lease, current) => w.(row := Release(w.row, lease, current).0)
  }

  function Run(w: World, steps: seq<Step>): World
    decreases |steps|
  {
    if steps == [] then w else Next(Run(w, steps[..|steps| - 1]), steps[|steps| - 1])
  }

  function TokenOf(w: World): nat { if w.row.Some? then w.row.value.token else 0 }

  predicate HolderOf(w: World, lease: Lease) {
    lease.term == lease.token && 1 <= lease.token <= TokenOf(w)
    && (lease.token == TokenOf(w) ==> w.row.value.holder == lease.holder)
  }

  predicate Sound(w: World) {
    && (w.row.Some? ==> w.row.value.term == w.row.value.token && 1 <= w.row.value.token && w.row.value.expiresAt.Some?)
    && (forall i :: 0 <= i < |w.issued| ==> HolderOf(w, w.issued[i]))
    && (forall i, j :: 0 <= i < j < |w.issued| && w.issued[i].token == w.issued[j].token ==> w.issued[i].holder == w.issued[j].holder)
    && (forall i :: 0 <= i < |w.log| ==> w.log[i] <= TokenOf(w))
    && forall i, j :: 0 <= i < j < |w.log| ==> w.log[i] <= w.log[j]
  }

  lemma NextIsSound(w: World, step: Step)
    requires Sound(w)
    ensures Sound(Next(w, step)) && TokenOf(w) <= TokenOf(Next(w, step))
    ensures w.issued <= Next(w, step).issued && w.log <= Next(w, step).log
  {
    var w' := Next(w, step);
    assert forall i :: 0 <= i < |w.issued| ==> HolderOf(w, w.issued[i]);
    forall i | 0 <= i < |w'.issued| ensures HolderOf(w', w'.issued[i]) {
      if i < |w.issued| { assert HolderOf(w, w.issued[i]); }
    }
  }

  /**
   * On every run: term equals token, tokens never decrease, each token belongs to one holder forever, and the
   * mutations let through carry non-decreasing tokens.
   */
  lemma {:induction false} RunIsSound(w: World, steps: seq<Step>)
    requires Sound(w)
    ensures Sound(Run(w, steps)) && TokenOf(w) <= TokenOf(Run(w, steps))
    ensures w.issued <= Run(w, steps).issued && w.log <= Run(w, steps).log
    decreases |steps|
  {
    if steps != [] {
      RunIsSound(w, steps[..|steps| - 1]);
      NextIsSound(Run(w, steps[..|steps| - 1]), steps[|steps| - 1]);
      hide Next, Sound;
    }
  }

  /** An issued lease can pass the fence at some clock exactly while the row still carries its token. */
  lemma UsableWhileCurrent(w: World, lease: Lease)
    requires Sound(w) && lease in w.issued
    ensures lease.token == TokenOf(w) <==> exists current :: Fenced(w.row, lease, current)
  {
    assert HolderOf(w, lease);
    if lease.token == TokenOf(w) {
      assert Fenced(w.row, lease, w.row.value.expiresAt.value - 1);
    }
  }

  /** A step takes the row away from a lease: somebody else acquires it, or it is released, through whichever copy. */
  predicate Supersedes(w: World, step: Step, lease: Lease) {
    || (step.Acquiring? && step.who != lease.holder && Acquire(w.row, step.who, step.seconds, step.at).1.Granted?)
    || (step.Releasing? && Release(w.row, step.lease, step.at).1)
  }

  /** Once superseded, a lease never passes the fence and is never renewed again, whatever clocks show later. */
  lemma {:induction false} SupersededForever(w: World, step: Step, lease: Lease, later: seq<Step>, seconds: int, current: int)
    requires Sound(w) && lease in w.issued && Supersedes(w, step, lease)
    ensures var w' := Run(Next(w, step), later);
            && lease.token < TokenOf(w')
            && !Fenced(w'.row, lease, current)
            && Renew(w'.row, lease, seconds, current) == (w'.row, Refused(LostToken))
            && Release(w'.row, lease, current) == (w'.row, false)
  {
    assert HolderOf(w, lease);
    NextIsSound(w, step);
    RunIsSound(Next(w, step), later);
    hide Run, ValidDuration;
  }

  /* ----- how long a lease passes ----- */

  /** A row is given to whoever holds it already, and to anybody else only when its time is up. */
  lemma AcquireGrants(row: Option<LeaseRow>, holder: string, seconds: int, current: int)
    ensures Acquire(row, holder, seconds, current).1.Granted? <==>
              && ValidHolder(holder) && 0 < seconds <= 300
              && (row.Some? && row.value.expiresAt.Some? && current < row.value.expiresAt.value ==> row.value.holder == holder)
    ensures !Acquire(row, holder, seconds, current).1.Granted? ==> Acquire(row, holder, seconds, current).0 == row
  {
  }

  /** A renewal needs the row's holder and token, and a clock before the row's expiry. */
  lemma RenewGrants(row: Option<LeaseRow>, lease: Lease, seconds: int, current: int)
    ensures Renew(row, lease, seconds, current).1.Granted? <==>
              && row.Some? && row.value.holder == lease.holder && row.value.token == lease.token
              && row.value.expiresAt.Some? && current < row.value.expiresAt.value && 0 < seconds <= 300
    ensures !Renew(row, lease, seconds, current).1.Granted? ==> Renew(row, lease, seconds, current).0 == row
  {
  }

  /** The step hands out a lease. */
  predicate Grants(w: World, step: Step) {
    match step
    case Acquiring(holder, seconds, current) => Acquire(w.row, holder, seconds, current).1.Granted?
    case Renewing(lease, seconds, current) => Renew(w.row, lease, seconds, current).1.Granted?
    case _ => false
  }

  predicate Releases(w: World, step: Step) {
    step.Releasing? && Release(w.row, step.lease, step.at).1
  }

  /** When the lease last handed out runs out: at its grant plus its duration, or at its release. */
  function Deadline(w: World, deadline: int, steps: seq<Step>): int
    decreases |steps|
  {
    if steps == [] then deadline
    else
      var front, last := steps[..|steps| - 1], steps[|steps| - 1];
      if Grants(Run(w, front), last) then last.at + last.seconds
      else if Releases(Run(w, front), last) then last.at
      else Deadline(w, deadline, front)
  }

  /** The copies of the current lease pass the fence exactly before `deadline`, on any clock. */
  ghost predicate PassUntil(w: World, deadline: int) {
    forall lease, current :: lease in w.issued ==>
      (Fenced(w.row, lease, current) <==> lease.token == TokenOf(w) && current < deadline)
  }

  /** A lease granted at `at` for `seconds` passes exactly before `at + seconds`, and so does every copy with its token. */
  lemma GrantedUntil(w: World, step: Step)
    requires Sound(w) && Grants(w, step)
    ensures var w' := Next(w, step);
            && |w'.issued| == |w.issued| + 1
            && w'.issued[|w.issued|].token == TokenOf(w') && w'.issued[|w.issued|].expiresAt == step.at + step.seconds
            && PassUntil(w', step.at + step.seconds)
  {
    NextIsSound(w, step);
    var w' := Next(w, step);
    forall lease | lease in w'.issued ensures HolderOf(w', lease) {}
  }

  lemma NextPasses(w: World, step: Step, deadline: int)
    requires Sound(w) && PassUntil(w, deadline)
    ensures PassUntil(Next(w, step), if Grants(w, step) then step.at + step.seconds
                                     else if Releases(w, step) then step.at else deadline)
  {
    NextIsSound(w, step);
    if Grants(w, step) {
      GrantedUntil(w, step);
    } else if Releases(w, step) {
      forall lease | lease in w.issued ensures lease.token != TokenOf(Next(w, step)) { assert HolderOf(w, lease); }
    }
  }

  /** On every run the fence lets a copy of a lease pass exactly while its token is current and before its deadline. */
  lemma {:induction false} FenceKeepsTime(steps: seq<Step>)
    ensures PassUntil(Run(START, steps), Deadline(START, 0, steps))
    decreases |steps|
  {
    if steps != [] {
      var front := steps[..|steps| - 1];
      FenceKeepsTime(front);
      RunIsSound(START, front);
      NextPasses(Run(START, front), steps[|steps| - 1], Deadline(START, 0, front));
      hide Next, Sound, PassUntil, Grants, Releases;
    }
  }

  /** So a mutation under an issued lease goes through, and is logged, exactly in that time. */
  lemma {:induction false} MutationsInTime(steps: seq<Step>, lease: Lease, current: int)
    requires lease in Run(START, steps).issued
    ensures var w := Run(START, steps);
            Next(w, Mutating(lease, current)) ==
              if lease.token == TokenOf(w) && current < Deadline(START, 0, steps) then w.(log := w.log + [lease.token]) else w
  {
    FenceKeepsTime(steps);
    hide Run, Deadline, Fenced, Sound;
  }

  /** When another holder takes over, no lease handed out before passes the fence on that clock, even before the step. */
  lemma TakeoverIsLate(w: World, holder: string, seconds: int, current: int, lease: Lease)
    requires Sound(w) && lease in w.issued && lease.holder != holder && Acquire(w.row, holder, seconds, current).1.Granted?
    ensures !Fenced(w.row, lease, current)
  {
    assert HolderOf(w, lease);
  }

  /** A released row is free for any holder whose clock has reached the release. */
  lemma ReleasedIsFree(w: World, lease: Lease, at: int, holder: string, seconds: int, current: int)
    requires Releases(w, Releasing(lease, at)) && ValidHolder(holder) && 0 < seconds <= 300
    ensures Acquire(Next(w, Releasing(lease, at)).row, holder, seconds, current).1.Granted? <==> at <= current
  {
  }

  /** Two leases that pass the fence against the same row are of one holder, even if their clocks disagree. */
  lemma OneActiveHolder(steps: seq<Step>, a: Lease, b: Lease, clockA: int, clockB: int)
    requires Fenced(Run(START, steps).row, a, clockA) && Fenced(Run(START, steps).row, b, clockB)
    ensures a.holder == b.holder && a.token == b.token == TokenOf(Run(START, steps))
  {
  }

  /** A passive node never disturbs the active one: it gets nothing and changes nothing until the lease runs out. */
  lemma PassiveUntilExpiry(w: World, holder: string, seconds: int, current: int)
    requires Sound(w) && w.row.Some? && w.row.value.holder != holder && ValidHolder(holder) && ValidDuration(seconds)
    ensures var (row', grant) := Acquire(w.row, holder, seconds, current);
            && (grant == Passive <==> current < w.row.value.expiresAt.value)
            && (grant == Passive ==> row' == w.row)
            && (grant != Passive ==> grant.Granted? && grant.lease.token == TokenOf(w) + 1 && Fenced(row', grant.lease, current))
  {
  }
}
