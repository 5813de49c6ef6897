/** Issuing, rotating and revoking the bearer credentials of agent hosts (pyfog/agent_credentials.py). */
module Credentials {
  import opened Bytes

  datatype Credential = Credential(host: nat, tokenHash: string, issuedAt: int, expiresAt: int,
                                   graceUntil: Option<int>, revokedAt: Option<int>)

  /** The token columns of a host row: a token registered before credentials had rows of their own. */
  datatype Host = Host(tokenHash: Option<string>, tokenExpiresAt: Option<int>)

  datatype Table = Table(credentials: seq<Credential>, hosts: map<nat, Host>)

  datatype Settings = Settings(tokenSeconds: int, graceSeconds: int)

  predicate ValidSettings(s: Settings) { 0 < s.tokenSeconds && 0 < s.graceSeconds }

  predicate Usable(c: Credential, current: int) {
    c.revokedAt.None? && c.expiresAt > current && (c.graceUntil.None? || c.graceUntil.value > current)
  }

  function Min(a: int, b: int): int { if a < b then a else b }

  predicate HashTaken(credentials: seq<Credential>, hash: string) {
    exists i :: 0 <= i < |credentials| && credentials[i].tokenHash == hash
  }

  /** `_import_legacy_credential`. */
  function Import(credentials: seq<Credential>, host: nat, row: Host, current: int): seq<Credential> {
    if row.tokenHash.None? || row.tokenHash.value == "" || row.tokenExpiresAt.None? then credentials
    else if HashTaken(credentials, row.tokenHash.value) then credentials
    else credentials + [Credential(host, row.tokenHash.value, current, row.tokenExpiresAt.value, None, None)]
  }

  predicate Active(c: Credential, host: nat, current: int) {
    c.host == host && c.revokedAt.None? && c.expiresAt > current
  }

  /** What issuing does to one older credential. */
  function Tighten(c: Credential, host: nat, current: int, deadline: int): Credential {
    var candidate := Min(c.expiresAt, deadline);
    if Active(c, host, current) && (c.graceUntil.None? || c.graceUntil.value > candidate)
    then c.(graceUntil := Some(candidate)) else c
  }

  function Issue(t: Table, s: Settings, host: nat, current: int, hash: string): (r: (Table, bool)) {
    if host !in t.hosts then (t, false)
    else
      var all := Import(t.credentials, host, t.hosts[host], current);
      if HashTaken(all, hash) then (t, false)
      else
        var older := seq(|all|, i requires 0 <= i < |all| => Tighten(all[i], host, current, current + s.graceSeconds));
        var fresh' := Credential(host, hash, current, current + s.tokenSeconds, None, None);
        (Table(older + [fresh'], t.hosts[host := Host(Some(hash), Some(current + s.tokenSeconds))]), true)
  }

  function RevokeOne(c: Credential, host: nat, current: int): Credential {
    if c.host == host && c.revokedAt.None? then c.(revokedAt := Some(current)) else c
  }

  function Revoke(t: Table, host: nat, current: int): Table {
    Table(seq(|t.credentials|, i requires 0 <= i < |t.credentials| => RevokeOne(t.credentials[i], host, current)),
          if host in t.hosts then t.hosts[host := Host(None, None)] else t.hosts)
  }

  class CredentialStore {
    const settings: Settings
    var credentials: seq<Credential>
    var hosts: map<nat, Host>

    constructor (settings: Settings, hosts: map<nat, Host>)
      ensures this.settings == settings && Contents() == Table([], hosts)
    {
      this.settings, this.hosts := settings, hosts;
      credentials := [];
    }

    function Contents(): Table
      reads this
    {
      Table(credentials, hosts)
    }

    /** `issue_credential`: import, put a deadline on everything still active, then add the new one. */
    method IssueCredential(host: nat, current: int, hash: string) returns (ok: bool)
      modifies this
      ensures (Contents(), ok) == Issue(old(Contents()), settings, host, current, hash)
    {
      if host !in hosts { return false; }
      var all := Import(credentials, host, hosts[host], current);
      if HashTaken(all, hash) { return false; }
      credentials := all;
      var deadline := current + settings.graceSeconds;
      for i := 0 to |credentials|
        invariant |credentials| == |all| && hosts == old(hosts)
        invariant forall k :: 0 <= k < i ==> credentials[k] == Tighten(all[k], host, current, deadline)
        invariant forall k :: i <= k < |all| ==> credentials[k] == all[k]
      {
        var credential := credentials[i];
        if credential.host == host && credential.revokedAt.None? && credential.expiresAt > current {
          var candidate := Min(credential.expiresAt, deadline);
          if credential.graceUntil.None? || credential.graceUntil.value > candidate {
            credentials := credentials[i := credential.(graceUntil := Some(candidate))];
          }
        }
      }
      assert credentials == seq(|all|, i requires 0 <= i < |all| => Tighten(all[i], host, current, deadline));
      credentials := credentials + [Credential(host, hash, current, current + settings.tokenSeconds, None, None)];
      hosts := hosts[host := Host(Some(hash), Some(current + settings.tokenSeconds))];
      return true;
    }

    /** `revoke_credentials`. */
    method RevokeCredentials(host: nat, current: int) returns (revoked: nat)
      modifies this
      ensures Contents() == Revoke(old(Contents()), host, current)
    {
      revoked := 0;
      ghost var all := credentials;
      for i := 0 to |credentials|
        invariant |credentials| == |all| && hosts == old(hosts)
        invariant forall k :: 0 <= k < i ==> credentials[k] == RevokeOne(all[k], host, current)
        invariant forall k :: i <= k < |all| ==> credentials[k] == all[k]
      {
        if credentials[i].host == host && credentials[i].revokedAt.None? {
          credentials := credentials[i := credentials[i].(revokedAt := Some(current))];
          revoked := revoked + 1;
        }
      }
      if host in hosts { hosts := hosts[host := Host(None, None)]; }
    }
  }

  /* ----- one rotation ----- */

  /** Deadlines only come closer, an expiry never moves, a revocation is never undone. */
  predicate OnlyTightens(c: Credential, c': Credential) {
    && c'.host == c.host && c'.tokenHash == c.tokenHash && c'.issuedAt == c.issuedAt && c'.expiresAt == c.expiresAt
    && (c.graceUntil.Some? ==> c'.graceUntil.Some? && c'.graceUntil.value <= c.graceUntil.value)
    && (c.revokedAt.Some? ==> c'.revokedAt == c.revokedAt)
  }

  /** Once a credential is unusable it stays so. */
  lemma TighteningIsForever(c: Credential, c': Credential, current: int, later: int)
    requires OnlyTightens(c, c') && current <= later
    ensures Usable(c', later) ==> Usable(c, current)
  {
  }

  ghost predicate Tightened(before: seq<Credential>, after: seq<Credential>) {
    |before| <= |after| && forall i :: 0 <= i < |before| ==> OnlyTightens(before[i], after[i])
  }

  /** Issuing adds its credential last, and no other credential of the host outlives the grace period. */
  lemma IssueRotates(t: Table, s: Settings, host: nat, current: int, hash: string)
    requires ValidSettings(s) && Issue(t, s, host, current, hash).1
    ensures var t' := Issue(t, s, host, current, hash).0;
            var newest := |t'.credentials| - 1;
            && Tightened(t.credentials, t'.credentials) && 0 <= newest
            && t'.credentials[newest].host == host && t'.credentials[newest].tokenHash == hash
            && (forall later :: current <= later < current + s.tokenSeconds <==> current <= later && Usable(t'.credentials[newest], later))
            && (forall i, later :: 0 <= i < newest && t'.credentials[i].host == host && current + s.graceSeconds <= later ==>
                                     !Usable(t'.credentials[i], later))
            && (forall i, later :: 0 <= i < |t.credentials| && t.credentials[i].host == host
                                   && current <= later < current + s.graceSeconds ==>
                                     (Usable(t'.credentials[i], later) <==> Usable(t.credentials[i], later)))
            && (forall i :: 0 <= i < |t.credentials| && t.credentials[i].host != host ==> t'.credentials[i] == t.credentials[i])
            && (forall i :: 0 <= i < |t.credentials| && Active(t.credentials[i], host, current) ==>
                  && t'.credentials[i].graceUntil.Some?
                  && (t'.credentials[i].graceUntil.value <= t.credentials[i].expiresAt
                      || t'.credentials[i].graceUntil == t.credentials[i].graceUntil))
            && t'.hosts.Keys == t.hosts.Keys && host in t'.hosts
            && t'.hosts[host] == Host(Some(hash), Some(current + s.tokenSeconds))
            && (forall other :: other in t.hosts && other != host ==> t'.hosts[other] == t.hosts[other])
  {
  }

  /** A token kept in the host row, from before credentials had rows. */
  predicate HasLegacy(t: Table, host: nat) {
    && host in t.hosts && t.hosts[host].tokenHash.Some? && t.hosts[host].tokenHash.value != "" && t.hosts[host].tokenExpiresAt.Some?
  }

  /** Issuing needs a known host and a token nobody has, not even as a legacy one; refused, it changes nothing. */
  lemma IssueDecides(t: Table, s: Settings, host: nat, current: int, hash: string)
    ensures var (t', ok) := Issue(t, s, host, current, hash);
            && (ok <==> && host in t.hosts && (forall i :: 0 <= i < |t.credentials| ==> t.credentials[i].tokenHash != hash)
                        && (HasLegacy(t, host) ==> t.hosts[host].tokenHash != Some(hash)))
            && (!ok ==> t' == t)
  {
    if host in t.hosts {
      var all := Import(t.credentials, host, t.hosts[host], current);
      ImportOnlyAppends(t.credentials, host, t.hosts[host], current);
      assert forall i :: 0 <= i < |t.credentials| ==> all[i] == t.credentials[i];
      if |all| > |t.credentials| { assert all[|t.credentials|].tokenHash == t.hosts[host].tokenHash.value; }
    }
  }

  /** The first rotation gives a legacy token a row of its own; it stays usable until its expiry or the end of grace. */
  lemma LegacyRotates(t: Table, s: Settings, host: nat, current: int, hash: string)
    requires ValidSettings(s) && Issue(t, s, host, current, hash).1 && HasLegacy(t, host)
    requires forall i :: 0 <= i < |t.credentials| ==> t.credentials[i].tokenHash != t.hosts[host].tokenHash.value
    ensures var t' := Issue(t, s, host, current, hash).0;
            var n := |t.credentials|;
            && |t'.credentials| == n + 2 && t'.credentials[n].host == host
            && Some(t'.credentials[n].tokenHash) == t.hosts[host].tokenHash
            && forall later :: current <= later ==>
                 (Usable(t'.credentials[n], later) <==> later < t.hosts[host].tokenExpiresAt.value && later < current + s.graceSeconds)
  {
  }

  lemma RevokeStops(t: Table, host: nat, current: int)
    ensures var t' := Revoke(t, host, current);
            && Tightened(t.credentials, t'.credentials)
            && (forall i, later :: 0 <= i < |t'.credentials| && t'.credentials[i].host == host ==> !Usable(t'.credentials[i], later))
            && (forall i :: 0 <= i < |t.credentials| && t.credentials[i].host != host ==> t'.credentials[i] == t.credentials[i])
  {
  }

  /* ----- runs ----- */

  datatype Event = Issuing(host: nat, at: int, hash: string) | Revoking(host: nat, at: int)

  function Next(t: Table, s: Settings, e: Event): Table {
    match e
    case Issuing(host, current, hash) => Issue(t, s, host, current, hash).0
    case Revoking(host, current) => Revoke(t, host, current)
  }

  function Run(t: Table, s: Settings, events: seq<Event>): Table
    decreases |events|
  {
    if events == [] then t else Next(Run(t, s, events[..|events| - 1]), s, events[|events| - 1])
  }

  /** Time never goes backwards, and `now` is not before any event. */
  predicate Ordered(events: seq<Event>, now: int) {
    && (forall i, j :: 0 <= i < j < |events| ==> events[i].at <= events[j].at)
    && forall i :: 0 <= i < |events| ==> events[i].at <= now
  }

  /** Of the active credentials of a host, only the one issued last may lack a deadline; no token has two rows. */
  ghost predicate Rotated(credentials: seq<Credential>, now: int) {
    && (forall i, j :: 0 <= i < j < |credentials| && credentials[i].host == credentials[j].host
                       && Active(credentials[i], credentials[i].host, now) && Active(credentials[j], credentials[j].host, now)
                       ==> credentials[i].graceUntil.Some?)
    && forall i, j :: 0 <= i < j < |credentials| ==> credentials[i].tokenHash != credentials[j].tokenHash
  }

  lemma ImportOnlyAppends(credentials: seq<Credential>, host: nat, row: Host, current: int)
    ensures var all := Import(credentials, host, row, current); credentials <= all && |all| <= |credentials| + 1
    ensures (forall i, j :: 0 <= i < j < |credentials| ==> credentials[i].tokenHash != credentials[j].tokenHash) ==>
              var all := Import(credentials, host, row, current);
              forall i, j :: 0 <= i < j < |all| ==> all[i].tokenHash != all[j].tokenHash
  {
  }

  lemma IssueKeepsRotated(t: Table, s: Settings, host: nat, current: int, hash: string)
    requires Rotated(t.credentials, current)
    ensures Rotated(Issue(t, s, host, current, hash).0.credentials, current)
    ensures Tightened(t.credentials, Issue(t, s, host, current, hash).0.credentials)
  {
    if host in t.hosts {
      hide Import;
      var all := Import(t.credentials, host, t.hosts[host], current);
      ImportOnlyAppends(t.credentials, host, t.hosts[host], current);
      ImportedHost(t.credentials, host, t.hosts[host], current);
    }
  }

  lemma ImportedHost(credentials: seq<Credential>, host: nat, row: Host, current: int)
    ensures var all := Import(credentials, host, row, current);
            forall i :: |credentials| <= i < |all| ==> all[i].host == host && all[i].graceUntil.None? && all[i].revokedAt.None?
  {
  }

  lemma LaterIsRotated(credentials: seq<Credential>, now: int, later: int)
    requires Rotated(credentials, now) && now <= later
    ensures Rotated(credentials, later)
  {
  }

  lemma TightenedTransitive(a: seq<Credential>, b: seq<Credential>, c: seq<Credential>)
    requires Tightened(a, b) && Tightened(b, c)
    ensures Tightened(a, c)
  {
    forall i | 0 <= i < |a| ensures OnlyTightens(a[i], c[i]) {
      assert OnlyTightens(a[i], b[i]) && OnlyTightens(b[i], c[i]);
    }
  }

  lemma NextTightens(t: Table, s: Settings, e: Event)
    requires Rotated(t.credentials, e.at)
    ensures Tightened(t.credentials, Next(t, s, e).credentials) && Rotated(Next(t, s, e).credentials, e.at)
  {
    match e
    case Issuing(host, current, hash) => IssueKeepsRotated(t, s, host, current, hash);
    case Revoking(host, current) =>
  }

  /** Along every run in time order, deadlines only tighten and at most the newest active credential has none. */
  lemma {:induction false} RunRotates(t: Table, s: Settings, events: seq<Event>, start: int, now: int)
    requires Rotated(t.credentials, start) && Ordered(events, now) && start <= now
    requires forall i :: 0 <= i < |events| ==> start <= events[i].at
    ensures Rotated(Run(t, s, events).credentials, now)
    ensures Tightened(t.credentials, Run(t, s, events).credentials)
    decreases |events|
  {
    hide Rotated, Tightened, Next;
    if events == [] {
      LaterIsRotated(t.credentials, start, now);
      NoChange(t.credentials);
    } else {
      var e, front := events[|events| - 1], events[..|events| - 1];
      RunRotates(t, s, front, start, e.at);
      NextTightens(Run(t, s, front), s, e);
      LaterIsRotated(Run(t, s, events).credentials, e.at, now);
      TightenedTransitive(t.credentials, Run(t, s, front).credentials, Run(t, s, events).credentials);
    }
  }

  lemma NoChange(credentials: seq<Credential>)
    ensures Tightened(credentials, credentials)
  {
  }

  /**
   * Rotation holds for good: once a credential has been issued at `current`, every older one of its host, an imported
   * legacy token included, is unusable from the end of the grace period on, whatever is issued or revoked afterwards.
   */
  lemma {:induction false} OldCredentialsDie(t: Table, s: Settings, host: nat, current: int, hash: string, later: seq<Event>,
                                             now: int, i: nat, time: int)
    requires ValidSettings(s) && Rotated(t.credentials, current) && Issue(t, s, host, current, hash).1
    requires Ordered(later, now) && current <= now && forall k :: 0 <= k < |later| ==> current <= later[k].at
    requires i < |Issue(t, s, host, current, hash).0.credentials| - 1
    requires Issue(t, s, host, current, hash).0.credentials[i].host == host && current + s.graceSeconds <= time
    ensures var t' := Run(Issue(t, s, host, current, hash).0, s, later);
            i < |t'.credentials| && !Usable(t'.credentials[i], time)
  {
    IssueRotates(t, s, host, current, hash);
    IssueKeepsRotated(t, s, host, current, hash);
    var t1 := Issue(t, s, host, current, hash).0;
    RunRotates(t1, s, later, current, now);
    var t2 := Run(t1, s, later);
    hide Issue, Run, Rotated;
    assert OnlyTightens(t1.credentials[i], t2.credentials[i]);
    TighteningIsForever(t1.credentials[i], t2.credentials[i], time, time);
  }

  /** No row of the host lets this token through, and none can be made of the host row. */
  ghost predicate Dead(t: Table, host: nat, hash: string) {
    && (forall i :: 0 <= i < |t.credentials| && t.credentials[i].host == host && t.credentials[i].tokenHash == hash ==>
                      t.credentials[i].revokedAt.Some?)
    && (host in t.hosts ==> t.hosts[host].tokenHash != Some(hash))
  }

  lemma NextKeepsDead(t: Table, s: Settings, e: Event, host: nat, hash: string)
    requires Dead(t, host, hash) && (e.Issuing? ==> e.hash != hash)
    ensures Dead(Next(t, s, e), host, hash)
  {
  }

  /**
   * A revoked host starts over: whatever is issued or revoked afterwards, no token it had, in a row or as a legacy one,
   * is ever usable for it again unless that very token is issued anew.
   */
  lemma {:induction false} RevokedTokensStayDead(t: Table, s: Settings, host: nat, current: int, later: seq<Event>, hash: string)
    requires forall k :: 0 <= k < |later| ==> later[k].Issuing? ==> later[k].hash != hash
    ensures var t' := Run(Revoke(t, host, current), s, later);
            Dead(t', host, hash)
            && forall i, time :: 0 <= i < |t'.credentials| && t'.credentials[i].host == host && t'.credentials[i].tokenHash == hash ==>
                                   !Usable(t'.credentials[i], time)
    decreases |later|
  {
    if later != [] {
      var front := later[..|later| - 1];
      RevokedTokensStayDead(t, s, host, current, front, hash);
      NextKeepsDead(Run(Revoke(t, host, current), s, front), s, later[|later| - 1], host, hash);
      hide Next, Revoke;
    }
  }

  /** Revocation leaves nothing usable, in grace or not, and nothing revives it. */
  lemma {:induction false} RevokedForever(t: Table, s: Settings, host: nat, current: int, later: seq<Event>, now: int, i: nat, time: int)
    requires Rotated(t.credentials, current) && i < |t.credentials| && t.credentials[i].host == host
    requires Ordered(later, now) && current <= now && forall k :: 0 <= k < |later| ==> current <= later[k].at
    ensures var t' := Run(Revoke(t, host, current), s, later);
            i < |t'.credentials| && !Usable(t'.credentials[i], time)
  {
    RevokeStops(t, host, current);
    NextTightens(t, s, Revoking(host, current));
    var t1 := Revoke(t, host, current);
    RunRotates(t1, s, later, current, now);
    var t2 := Run(t1, s, later);
    hide Revoke, Run, Rotated;
    assert OnlyTightens(t1.credentials[i], t2.credentials[i]);
    TighteningIsForever(t1.credentials[i], t2.credentials[i], time, time);
  }
}
