/** The relay's bounded, content-addressed cache (pyfog/relay.py). */
module Relay {
  import opened Bytes
  import opened Transfer
  import opened Storage

  const MAX_LEASE_SECONDS: int := 3600

  /** For every digest the expiry times of the leases on it, by lease identifier. */
  type Leases = map<Digest, map<nat, int>>

  datatype Cache = Cache(content: Files, access: map<Digest, int>, leases: Leases, nextLease: nat)

  function Live(m: map<nat, int>, now: int): map<nat, int> {
    map id | id in m && m[id] > now :: m[id]
  }

  function Purged(leases: Leases, now: int): Leases {
    map d | d in leases && Live(leases[d], now) != map[] :: Live(leases[d], now)
  }

  predicate Leased(leases: Leases, d: Digest) { d in leases && leases[d] != map[] }

  function LeasedOnly(content: Files, leases: Leases): Files {
    map d | d in content && Leased(leases, d) :: content[d]
  }

  /** Bytes of the entries somebody holds a lease on. */
  ghost function LeasedBytes(content: Files, leases: Leases): nat { TotalSize(LeasedOnly(content, leases)) }

  function Unleased(order: seq<Digest>, leases: Leases): seq<Digest> {
    if order == [] then []
    else
      var last := order[|order| - 1];
      Unleased(order[..|order| - 1], leases) + if Leased(leases, last) then [] else [last]
  }

  predicate NoDuplicates(s: seq<Digest>) { forall i, j :: 0 <= i < j < |s| ==> s[i] != s[j] }

  ghost predicate Enumerates(s: seq<Digest>, keys: set<Digest>) {
    NoDuplicates(s) && forall d :: d in s <==> d in keys
  }

  /** Oldest access first. */
  ghost predicate OldestFirst(order: seq<Digest>, access: map<Digest, int>) {
    forall i, j :: 0 <= i < j < |order| && order[i] in access && order[j] in access ==> access[order[i]] <= access[order[j]]
  }

  function Without(content: Files, removed: seq<Digest>): Files {
    map d | d in content && d !in removed :: content[d]
  }

  /**
   * The entries removed are the shortest prefix, oldest access first, of the entries nobody leases that makes the
   * cache fit; all of them when nothing less does.
   */
  ghost predicate Evicts(max: nat, content: Files, access: map<Digest, int>, leases: Leases, removed: seq<Digest>) {
    exists order: seq<Digest> ::
      && Enumerates(order, content.Keys) && OldestFirst(order, access)
      && removed <= Unleased(order, leases)
      && (forall k :: 0 <= k < |removed| ==> max < TotalSize(Without(content, removed[..k])))
      && (max < TotalSize(Without(content, removed)) ==> removed == Unleased(order, leases))
  }

  lemma {:induction false} UnleasedMembers(order: seq<Digest>, leases: Leases)
    requires NoDuplicates(order)
    ensures forall d :: d in Unleased(order, leases) <==> d in order && !Leased(leases, d)
    ensures NoDuplicates(Unleased(order, leases))
  {
    if order != [] {
      UnleasedMembers(order[..|order| - 1], leases);
      assert order == order[..|order| - 1] + [order[|order| - 1]];
    }
  }

  /** The order in which an eviction looked at the entries. */
  lemma EvictionOrder(max: nat, content: Files, access: map<Digest, int>, leases: Leases, removed: seq<Digest>)
    returns (order: seq<Digest>)
    requires Evicts(max, content, access, leases, removed)
    ensures Enumerates(order, content.Keys) && OldestFirst(order, access) && removed <= Unleased(order, leases)
    ensures forall d :: d in Unleased(order, leases) <==> d in content && !Leased(leases, d)
    ensures NoDuplicates(Unleased(order, leases))
    ensures NeverFits(max, content, removed)
    ensures max < TotalSize(Without(content, removed)) ==> removed == Unleased(order, leases)
  {
    hide TotalSize, Without, Unleased, OldestFirst, Leased;
    order :|
      && Enumerates(order, content.Keys) && OldestFirst(order, access)
      && removed <= Unleased(order, leases)
      && (forall k :: 0 <= k < |removed| ==> max < TotalSize(Without(content, removed[..k])))
      && (max < TotalSize(Without(content, removed)) ==> removed == Unleased(order, leases));
    UnleasedMembers(order, leases);
  }

  lemma AllUnleasedGone(content: Files, leases: Leases, removed: seq<Digest>)
    requires forall d :: d in removed <==> d in content && !Leased(leases, d)
    ensures Without(content, removed) == LeasedOnly(content, leases)
  {
  }

  /** Leased entries stay, and what is left is at most the limit, or nothing but what is leased. */
  lemma EvictionBounds(max: nat, content: Files, access: map<Digest, int>, leases: Leases, removed: seq<Digest>)
    requires Evicts(max, content, access, leases, removed)
    ensures forall d :: d in content && Leased(leases, d) ==> d in Without(content, removed)
    ensures TotalSize(Without(content, removed)) <= max
            || TotalSize(Without(content, removed)) == LeasedBytes(content, leases)
  {
    hide TotalSize, Evicts, Unleased, OldestFirst, Leased, NeverFits;
    var order := EvictionOrder(max, content, access, leases, removed);
    if max < TotalSize(Without(content, removed)) { AllUnleasedGone(content, leases, removed); }
  }

  /** Nothing is removed from a cache that fits, and nothing more than needed from one that does not. */
  lemma EvictionIsMinimal(max: nat, content: Files, access: map<Digest, int>, leases: Leases, removed: seq<Digest>)
    requires Evicts(max, content, access, leases, removed)
    ensures TotalSize(content) <= max ==> removed == []
    ensures removed != [] ==> max < TotalSize(Without(content, removed[..|removed| - 1]))
  {
    hide TotalSize, Unleased, OldestFirst, Enumerates;
    assert Without(content, []) == content;
    assert removed[..0] == [];
  }

  /** The entry accessed last survives whenever it fits beside what is leased. */
  lemma NewestSurvives(max: nat, content: Files, access: map<Digest, int>, leases: Leases, removed: seq<Digest>, d: Digest)
    requires Evicts(max, content, access, leases, removed)
    requires content.Keys <= access.Keys && d in content
    requires forall e :: e in content && e != d ==> access[e] < access[d]
    requires |content[d]| + LeasedBytes(content, leases) <= max
    ensures d !in removed
  {
    hide TotalSize, Evicts, OldestFirst, Enumerates, Unleased, Leased, Without;
    var order := EvictionOrder(max, content, access, leases, removed);
    if d in removed {
      LastIsNewest(order, content.Keys, access, d);
      UnleasedLast(order, leases);
      PrefixWithLast(removed, Unleased(order, leases), d);
      AllUnleasedGone(content, leases, removed);
      LastRemoved(content, removed);
      assert false;
    }
  }

  lemma UnleasedLast(order: seq<Digest>, leases: Leases)
    requires order != [] && !Leased(leases, order[|order| - 1])
    ensures Unleased(order, leases) != [] && Unleased(order, leases)[|Unleased(order, leases)| - 1] == order[|order| - 1]
  {
  }

  lemma PrefixWithLast(part: seq<Digest>, all: seq<Digest>, d: Digest)
    requires part <= all && NoDuplicates(all) && all != [] && all[|all| - 1] == d && d in part
    ensures part == all
  {
    var i :| 0 <= i < |part| && part[i] == d;
    assert all[i] == d;
  }

  lemma LastRemoved(content: Files, removed: seq<Digest>)
    requires NoDuplicates(removed) && removed != [] && removed[|removed| - 1] in content
    ensures var n := |removed| - 1;
            TotalSize(Without(content, removed[..n])) == |content[removed[n]]| + TotalSize(Without(content, removed))
  {
    var n := |removed| - 1;
    var left := Without(content, removed[..n]);
    assert removed == removed[..n] + [removed[n]];
    assert left - {removed[n]} == Without(content, removed);
    TotalSizeAt(left, removed[n]);
    hide TotalSize;
  }

  lemma LastIsNewest(order: seq<Digest>, keys: set<Digest>, access: map<Digest, int>, d: Digest)
    requires Enumerates(order, keys) && OldestFirst(order, access) && keys <= access.Keys && d in keys
    requires forall e :: e in keys && e != d ==> access[e] < access[d]
    ensures order != [] && order[|order| - 1] == d
  {
    var i :| 0 <= i < |order| && order[i] == d;
    var last := order[|order| - 1];
    assert last in order && last in keys;
  }

  /* ----- steps ----- */

  /** Every entry is the content its name says. */
  ghost predicate Addressed(h: Hash, c: Cache) {
    && (forall d :: d in c.content ==> h(c.content[d]) == d)
    && c.content.Keys <= c.access.Keys
    && forall d, id :: d in c.leases && id in c.leases[d] ==> id < c.nextLease
  }

  /** Eviction purges elapsed leases first. */
  ghost predicate EvictStep(max: nat, c: Cache, now: int, removed: seq<Digest>, c': Cache) {
    && c'.leases == Purged(c.leases, now)
    && Evicts(max, c.content, c.access, c'.leases, removed)
    && c'.content == Without(c.content, removed) && c'.access == c.access && c'.nextLease == c.nextLease
  }

  /** Exposing verified content under its digest, then making room. */
  ghost predicate InsertStep(max: nat, c: Cache, d: Digest, content: Bytes, at: int, now: int, removed: seq<Digest>, c': Cache) {
    EvictStep(max, c.(content := c.content[d := content], access := c.access[d := at]), now, removed, c')
  }

  function AcquireStep(c: Cache, d: Digest, seconds: int, now: int): (r: (Cache, Option<nat>)) {
    if d !in c.content || seconds <= 0 || MAX_LEASE_SECONDS < seconds then (c, None)
    else
      var leases := Purged(c.leases, now);
      var mine := if d in leases then leases[d] else map[];
      (c.(leases := leases[d := mine[c.nextLease := now + seconds]], nextLease := c.nextLease + 1), Some(c.nextLease))
  }

  function ReleaseStep(c: Cache, d: Digest, id: nat): Cache {
    if d !in c.leases then c
    else
      var mine := c.leases[d] - {id};
      c.(leases := if mine == map[] then c.leases - {d} else c.leases[d := mine])
  }

  class RelayCache {
    const maxBytes: nat
    var content: Files
    var access: map<Digest, int>
    var leases: Leases
    var nextLease: nat
    var staging: map<Digest, Bytes>

    constructor (maxBytes: nat)
      ensures this.maxBytes == maxBytes && Contents() == Cache(map[], map[], map[], 0)
    {
      this.maxBytes := maxBytes;
      content, access, leases, nextLease, staging := map[], map[], map[], 0, map[];
    }

    function Contents(): Cache
      reads this
    {
      Cache(content, access, leases, nextLease)
    }

    method DropExpired(m: map<nat, int>, now: int) returns (left: map<nat, int>)
      ensures left == Live(m, now)
    {
      left := m;
      var ids := m.Keys;
      while ids != {}
        invariant ids <= m.Keys
        invariant left == map id | id in m && (id in ids || m[id] > now) :: m[id]
        decreases ids
      {
        var id :| id in ids;
        if m[id] <= now { left := left - {id}; }
        ids := ids - {id};
      }
    }

    /** `_purge_expired`. */
    method PurgeExpired(now: int)
      modifies this`leases
      ensures leases == Purged(old(leases), now)
    {
      ghost var before := leases;
      var digests := leases.Keys;
      while digests != {}
        invariant digests <= before.Keys
        invariant forall d :: d in leases <==> d in digests || d in Purged(before, now)
        invariant forall d :: d in leases ==> leases[d] == if d in digests then before[d] else Live(before[d], now)
        decreases digests
      {
        var d :| d in digests;
        var left := DropExpired(leases[d], now);
        leases := if left == map[] then leases - {d} else leases[d := left];
        digests := digests - {d};
      }
    }

    /** The directory listing, in whatever order the file system gives it. */
    method ListEntries() returns (entries: seq<Digest>)
      ensures Enumerates(entries, content.Keys)
    {
      entries := [];
      var rest := content.Keys;
      while rest != {}
        invariant rest <= content.Keys && NoDuplicates(entries)
        invariant forall d :: d in entries <==> d in content && d !in rest
        decreases rest
      {
        var d :| d in rest;
        entries, rest := entries + [d], rest - {d};
      }
    }

    /** A stable sort on access times. */
    method SortByAccess(entries: seq<Digest>) returns (order: seq<Digest>)
      requires NoDuplicates(entries) && forall d :: d in entries ==> d in access
      ensures OldestFirst(order, access) && NoDuplicates(order) && forall d :: d in order <==> d in entries
    {
      order := [];
      for i := 0 to |entries|
        invariant OldestFirst(order, access) && NoDuplicates(order)
        invariant forall d :: d in order <==> d in entries[..i]
        invariant forall k :: 0 <= k < |order| ==> order[k] in access
      {
        var d := entries[i];
        var p := |order|;
        while p > 0 && access[order[p - 1]] > access[d]
          invariant 0 <= p <= |order|
          invariant forall k :: p <= k < |order| ==> access[order[k]] > access[d]
        {
          p := p - 1;
        }
        SortedInsert(order, access, p, d);
        FreshInsert(order, p, d);
        order := order[..p] + [d] + order[p..];
        assert entries[..i + 1] == entries[..i] + [d];
      }
      assert entries[..|entries|] == entries;
    }

    method TotalBytes(entries: seq<Digest>) returns (total: nat)
      requires Enumerates(entries, content.Keys)
      ensures total == TotalSize(content)
    {
      hide TotalSize, Without;
      total := 0;
      CountedNone(content);
      for i := 0 to |entries|
        invariant total + TotalSize(Without(content, entries[..i])) == TotalSize(content)
      {
        CountOne(content, entries, i);
        total := total + |content[entries[i]]|;
      }
      CountedAll(content, entries);
    }

    /** `evict`: walk the entries, oldest access first, until what is left fits. */
    method Evict(now: int) returns (removed: seq<Digest>)
      requires content.Keys <= access.Keys
      modifies this`leases, this`content
      ensures EvictStep(maxBytes, old(Contents()), now, removed, Contents())
    {
      hide TotalSize, Purged, Unleased, Evicts, OldestFirst, NeverFits, Without;
      PurgeExpired(now);
      var entries := ListEntries();
      var total := TotalBytes(entries);
      var order := SortByAccess(entries);
      ghost var before := content;
      removed := [];
      NothingRemoved(maxBytes, before, order, leases);
      var i := 0;
      while i < |order| && maxBytes < total
        invariant 0 <= i <= |order|
        invariant leases == Purged(old(leases), now) && removed == Unleased(order[..i], leases)
        invariant content == Without(before, removed) && total == TotalSize(content)
        invariant NeverFits(maxBytes, before, removed)
      {
        var d := order[i];
        UnleasedNext(order, leases, i);
        if !Leased(leases, d) {
          EntryStillThere(order, leases, i, content, before, removed);
          EvictOne(maxBytes, before, removed, d);
          total := total - |content[d]|;
          content := content - {d};
          removed := removed + [d];
        }
        i := i + 1;
      }
      UnleasedPrefix(order, leases, i);
      assert i == |order| ==> order[..i] == order;
      EvictsIntro(maxBytes, before, access, leases, removed, order);
    }

    predicate Has(d: Digest, size: nat)
      reads this
    {
      d in content && |content[d]| == size
    }

    /** `publish_file`: verify, copy under the digest, make room. `at` is the copy's access time. */
    method PublishFile(h: Hash, source: Bytes, d: Digest, size: nat, at: int, now: int) returns (ok: bool, ghost removed: seq<Digest>)
      requires content.Keys <= access.Keys
      modifies this`leases, this`content, this`access
      ensures ok <==> |source| == size && h(source) == d
      ensures if !ok || old(Has(d, size)) then Contents() == old(Contents())
              else InsertStep(maxBytes, old(Contents()), d, source, at, now, removed, Contents())
    {
      hide EvictStep;
      removed := [];
      if |source| != size || h(source) != d { return false, []; }
      if Has(d, size) { return true, []; }
      content, access := content[d := source], access[d := at];
      var gone := Evict(now);
      return true, gone;
    }

    /** `write_block`: a verified block of an artifact being fetched. */
    method WriteRelayBlock(h: Hash, m: TransferManifest, block: TransferBlock, payload: Bytes, d: Digest) returns (reply: BlockReply)
      requires Tiles(m)
      modifies this`staging
      ensures var before := if d in old(staging) then Some(old(staging)[d]) else None;
              var (after, reply') := WriteBlock(h, m, before, block, payload);
              reply == reply' && staging == if after.Some? then old(staging)[d := after.value] else old(staging)
    {
      var file := new StagingFile();
      if d in staging { file.content := Some(staging[d]); }
      reply := file.WriteVerifiedBlock(h, m, block, payload);
      if file.content.Some? { staging := staging[d := file.content.value]; }
    }

    /** `complete_block_transfer`: expose a finished transfer, whole and with the digest asked for. */
    method CompleteBlockTransfer(h: Hash, m: TransferManifest, d: Digest, at: int, now: int) returns (ok: bool, ghost removed: seq<Digest>)
      requires Tiles(m) && content.Keys <= access.Keys
      modifies this
      ensures ok <==> d in old(staging) && Complete(h, m, Some(old(staging)[d])) && h(old(staging)[d]) == d
      ensures if !ok then Contents() == old(Contents()) && staging == old(staging)
              else staging == old(staging) - {d}
                   && InsertStep(maxBytes, old(Contents()), d, old(staging)[d], at, now, removed, Contents())
    {
      hide EvictStep;
      removed := [];
      if d !in staging { return false, []; }
      var file := new StagingFile();
      file.content := Some(staging[d]);
      var complete := file.VerifyCompleteTransfer(h, m);
      if !complete || h(staging[d]) != d { return false, []; }
      content, access := content[d := staging[d]], access[d := at];
      staging := staging - {d};
      var gone := Evict(now);
      return true, gone;
    }

    /** `acquire`: pin an entry for a while. */
    method AcquireEntry(d: Digest, seconds: int, now: int) returns (lease: Option<nat>)
      modifies this`leases, this`nextLease
      ensures (Contents(), lease) == AcquireStep(old(Contents()), d, seconds, now)
      ensures lease.Some? <==> d in content && 0 < seconds <= 3600
      ensures lease.Some? ==> Pinned(Contents(), d, lease.value, now + seconds)
    {
      hide Purged, Live;
      if d !in content { return None; }
      if seconds <= 0 || MAX_LEASE_SECONDS < seconds { return None; }
      PurgeExpired(now);
      var id := nextLease;
      if d !in leases { leases := leases[d := map[]]; }
      leases := leases[d := leases[d][id := now + seconds]];
      nextLease := nextLease + 1;
      assert leases == AcquireStep(old(Contents()), d, seconds, now).0.leases;
      return Some(id);
    }

    /** `release`. */
    method ReleaseEntry(d: Digest, id: nat)
      modifies this`leases
      ensures Contents() == ReleaseStep(old(Contents()), d, id)
    {
      if d !in leases { return; }
      leases := leases[d := leases[d] - {id}];
      if leases[d] == map[] { leases := leases - {d}; }
      assert leases == ReleaseStep(old(Contents()), d, id).leases;
    }
  }

  lemma NothingRemoved(max: nat, content: Files, order: seq<Digest>, leases: Leases)
    ensures Without(content, []) == content && NeverFits(max, content, []) && Unleased(order[..0], leases) == []
  {
  }

  lemma UnleasedNext(order: seq<Digest>, leases: Leases, i: nat)
    requires i < |order|
    ensures Unleased(order[..i + 1], leases) == Unleased(order[..i], leases) + if Leased(leases, order[i]) then [] else [order[i]]
  {
    assert order[..i + 1][..i] == order[..i];
  }

  /** Before every removal so far the cache was too big. */
  ghost predicate NeverFits(max: nat, content: Files, removed: seq<Digest>) {
    forall k :: 0 <= k < |removed| ==> max < TotalSize(Without(content, removed[..k]))
  }

  lemma EvictOne(max: nat, before: Files, removed: seq<Digest>, d: Digest)
    requires NeverFits(max, before, removed) && d in Without(before, removed) && max < TotalSize(Without(before, removed))
    ensures var content := Without(before, removed);
            && TotalSize(content) == |content[d]| + TotalSize(content - {d})
            && content - {d} == Without(before, removed + [d])
    ensures NeverFits(max, before, removed + [d])
  {
    TotalSizeAt(Without(before, removed), d);
    hide TotalSize;
    var removed' := removed + [d];
    forall k | 0 <= k < |removed'| ensures max < TotalSize(Without(before, removed'[..k])) {
      assert removed'[..k] == removed[..k];
      assert removed[..|removed|] == removed;
    }
  }

  lemma CountedNone(content: Files)
    ensures Without(content, []) == content
  {
  }

  lemma CountOne(content: Files, entries: seq<Digest>, i: nat)
    requires Enumerates(entries, content.Keys) && i < |entries|
    ensures TotalSize(Without(content, entries[..i])) == |content[entries[i]]| + TotalSize(Without(content, entries[..i + 1]))
  {
    assert entries[i] in entries;
    assert entries[..i + 1][..i] == entries[..i];
    LastRemoved(content, entries[..i + 1]);
  }

  lemma CountedAll(content: Files, entries: seq<Digest>)
    requires Enumerates(entries, content.Keys)
    ensures TotalSize(Without(content, entries[..|entries|])) == 0
  {
    assert entries[..|entries|] == entries;
    assert Without(content, entries) == map[];
  }

  lemma EvictsIntro(max: nat, content: Files, access: map<Digest, int>, leases: Leases, removed: seq<Digest>, order: seq<Digest>)
    requires Enumerates(order, content.Keys) && OldestFirst(order, access)
    requires removed <= Unleased(order, leases)
    requires NeverFits(max, content, removed)
    requires max < TotalSize(Without(content, removed)) ==> removed == Unleased(order, leases)
    ensures Evicts(max, content, access, leases, removed)
  {
  }

  lemma {:induction false} UnleasedPrefix(order: seq<Digest>, leases: Leases, i: nat)
    requires i <= |order|
    ensures Unleased(order[..i], leases) <= Unleased(order, leases)
    decreases |order|
  {
    if i == |order| {
      assert order[..i] == order;
    } else {
      UnleasedPrefix(order[..|order| - 1], leases, i);
      assert order[..|order| - 1][..i] == order[..i];
    }
  }

  lemma SortedInsert(order: seq<Digest>, access: map<Digest, int>, p: nat, d: Digest)
    requires OldestFirst(order, access) && p <= |order| && d in access
    requires forall k :: 0 <= k < |order| ==> order[k] in access
    requires forall k :: p <= k < |order| ==> access[order[k]] > access[d]
    requires 0 < p ==> access[order[p - 1]] <= access[d]
    ensures OldestFirst(order[..p] + [d] + order[p..], access)
  {
    var order' := order[..p] + [d] + order[p..];
    assert forall k :: 0 <= k < p ==> access[order[k]] <= access[d];
    forall i, j | 0 <= i < j < |order'| ensures access[order'[i]] <= access[order'[j]] {
      assert order'[i] == if i < p then order[i] else if i == p then d else order[i - 1];
      assert order'[j] == if j < p then order[j] else if j == p then d else order[j - 1];
    }
  }

  lemma FreshInsert(order: seq<Digest>, p: nat, d: Digest)
    requires NoDuplicates(order) && d !in order && p <= |order|
    ensures var order' := order[..p] + [d] + order[p..];
            NoDuplicates(order') && forall e :: e in order' <==> e in order || e == d
  {
    var order' := order[..p] + [d] + order[p..];
    assert order == order[..p] + order[p..];
  }

  lemma EntryStillThere(order: seq<Digest>, leases: Leases, i: nat, content: Files, before: Files, removed: seq<Digest>)
    requires Enumerates(order, before.Keys) && i < |order| && removed == Unleased(order[..i], leases)
    requires content == Without(before, removed)
    ensures order[i] in content
  {
    UnleasedMembers(order[..i], leases);
    assert order[i] in order;
  }

  /* ----- runs ----- */

  datatype Event =
    | Inserting(d: Digest, content: Bytes, at: int, now: int)
    | Evicting(now: int)
    | Acquiring(d: Digest, seconds: int, now: int)
    | Releasing(d: Digest, id: nat)
    | Reading(d: Digest, at: int)

  /** What one event may make of a cache; which entries go among equally old ones is up to the file system. */
  ghost predicate CacheStep(h: Hash, max: nat, c: Cache, e: Event, c': Cache) {
    match e
    case Inserting(d, content, at, now) => h(content) == d && exists removed :: InsertStep(max, c, d, content, at, now, removed, c')
    case Evicting(now) => exists removed :: EvictStep(max, c, now, removed, c')
    case Acquiring(d, seconds, now) => c' == AcquireStep(c, d, seconds, now).0
    case Releasing(d, id) => c' == ReleaseStep(c, d, id)
    case Reading(d, at) => c' == if d in c.content then c.(access := c.access[d := at]) else c
  }

  predicate Before(e: Event, time: int) {
    match e
    case Inserting(_, _, _, now) => now < time
    case Evicting(now) => now < time
    case Acquiring(_, _, now) => now < time
    case _ => true
  }

  /** The lease is on record and its entry is there. */
  predicate Pinned(c: Cache, d: Digest, id: nat, expires: int) {
    d in c.content && d in c.leases && id in c.leases[d] && c.leases[d][id] == expires
  }

  lemma EvictKeepsPin(max: nat, c: Cache, now: int, removed: seq<Digest>, c': Cache, d: Digest, id: nat, expires: int)
    requires EvictStep(max, c, now, removed, c') && Pinned(c, d, id, expires) && now < expires
    ensures Pinned(c', d, id, expires)
  {
    hide Evicts;
    assert id in Live(c.leases[d], now);
    EvictionBounds(max, c.content, c.access, c'.leases, removed);
  }

  lemma StepKeepsPin(h: Hash, max: nat, c: Cache, e: Event, c': Cache, d: Digest, id: nat, expires: int)
    requires Addressed(h, c) && CacheStep(h, max, c, e, c') && Pinned(c, d, id, expires)
    requires Before(e, expires) && e != Releasing(d, id)
    ensures Pinned(c', d, id, expires)
  {
    hide Evicts, EvictStep;
    match e
    case Inserting(d', content, at, now) =>
      var removed :| InsertStep(max, c, d', content, at, now, removed, c');
      EvictKeepsPin(max, c.(content := c.content[d' := content], access := c.access[d' := at]), now, removed, c', d, id, expires);
    case Evicting(now) =>
      var removed :| EvictStep(max, c, now, removed, c');
      EvictKeepsPin(max, c, now, removed, c', d, id, expires);
    case Acquiring(d', seconds, now) =>
      assert id in Live(c.leases[d], now);
    case Releasing(d', id') =>
      assert d' == d ==> id in c.leases[d] - {id'};
    case Reading(_, _) =>
  }

  lemma StepKeepsAddresses(h: Hash, max: nat, c: Cache, e: Event, c': Cache)
    requires Addressed(h, c) && CacheStep(h, max, c, e, c')
    ensures Addressed(h, c')
  {
    hide Evicts;
  }

  /** A cache evolving under any events. */
  ghost predicate Trace(h: Hash, max: nat, caches: seq<Cache>, events: seq<Event>) {
    && |caches| == |events| + 1
    && forall i, j :: 0 <= i < |events| && j == i + 1 ==> CacheStep(h, max, caches[i], events[i], caches[j])
  }

  /**
   * An entry somebody leases is never removed: whatever is published, evicted, read, leased or released meanwhile, it
   * stays until its lease is given back or runs out. And every entry is always the content its digest names.
   */
  lemma {:induction false} PinnedEntriesStay(h: Hash, max: nat, caches: seq<Cache>, events: seq<Event>, n: nat,
                                             d: Digest, id: nat, expires: int)
    requires Trace(h, max, caches, events) && n <= |events| && Addressed(h, caches[0]) && Pinned(caches[0], d, id, expires)
    requires forall i :: 0 <= i < n ==> Before(events[i], expires) && events[i] != Releasing(d, id)
    ensures Pinned(caches[n], d, id, expires) && Addressed(h, caches[n]) && h(caches[n].content[d]) == d
  {
    hide CacheStep;
    if n > 0 {
      PinnedEntriesStay(h, max, caches, events, n - 1, d, id, expires);
      StepKeepsAddresses(h, max, caches[n - 1], events[n - 1], caches[n]);
      StepKeepsPin(h, max, caches[n - 1], events[n - 1], caches[n], d, id, expires);
    }
  }

  /** After an insertion the cache fits, or holds nothing but leased entries; the new entry survives if it fits beside those. */
  lemma InsertionBounds(h: Hash, max: nat, c: Cache, d: Digest, content: Bytes, at: int, now: int, removed: seq<Digest>, c': Cache)
    requires Addressed(h, c) && InsertStep(max, c, d, content, at, now, removed, c')
    ensures TotalSize(c'.content) <= max || TotalSize(c'.content) == LeasedBytes(c.content[d := content], c'.leases)
    ensures (forall e :: e in c.content && e != d ==> c.access[e] < at)
            && |content| + LeasedBytes(c.content[d := content], c'.leases) <= max
            ==> d in c'.content && c'.content[d] == content
  {
    hide Evicts, TotalSize;
    var files, access := c.content[d := content], c.access[d := at];
    EvictionBounds(max, files, access, c'.leases, removed);
    if (forall e :: e in c.content && e != d ==> c.access[e] < at) && |content| + LeasedBytes(files, c'.leases) <= max {
      NewestSurvives(max, files, access, c'.leases, removed, d);
    }
  }

  /* ----- acquiring and releasing ----- */

  predicate OnRecord(c: Cache, d: Digest, id: nat, expires: int) {
    d in c.leases && id in c.leases[d] && c.leases[d][id] == expires
  }

  /** A pin is granted exactly on a present entry for an allowed time; it is new, lasts that long, and disturbs no other. */
  lemma AcquirePins(h: Hash, c: Cache, d: Digest, seconds: int, now: int)
    requires Addressed(h, c)
    ensures var (c', lease) := AcquireStep(c, d, seconds, now);
            && (lease.Some? <==> d in c.content && 0 < seconds <= 3600)
            && (lease.None? ==> c' == c)
            && (lease.Some? ==>
                  && (forall e, expires :: !OnRecord(c, e, lease.value, expires))
                  && Pinned(c', d, lease.value, now + seconds)
                  && c'.content == c.content && c'.access == c.access
                  && forall e, id, expires :: id != lease.value ==>
                       (OnRecord(c', e, id, expires) <==> OnRecord(c, e, id, expires) && now < expires))
  {
    var (c', lease) := AcquireStep(c, d, seconds, now);
    if lease.Some? {
      forall e, id, expires | id != lease.value
        ensures OnRecord(c', e, id, expires) <==> OnRecord(c, e, id, expires) && now < expires
      {
        PurgeIsExact(c.leases, now, e, id);
      }
    }
  }

  lemma PurgeIsExact(leases: Leases, now: int, d: Digest, id: nat)
    ensures d in Purged(leases, now) && id in Purged(leases, now)[d] <==> d in leases && id in leases[d] && now < leases[d][id]
    ensures d in Purged(leases, now) && id in Purged(leases, now)[d] ==> Purged(leases, now)[d][id] == leases[d][id]
  {
    if d in leases && id in leases[d] && now < leases[d][id] { assert id in Live(leases[d], now); }
  }

  /** A pin given back is gone, and no other. */
  lemma ReleaseUnpins(c: Cache, d: Digest, id: nat)
    ensures var c' := ReleaseStep(c, d, id);
            && c'.content == c.content && c'.access == c.access
            && forall e, id', expires :: OnRecord(c', e, id', expires) <==> OnRecord(c, e, id', expires) && !(e == d && id' == id)
  {
    var c' := ReleaseStep(c, d, id);
    forall e, id', expires
      ensures OnRecord(c', e, id', expires) <==> OnRecord(c, e, id', expires) && !(e == d && id' == id)
    {
      if d in c.leases && OnRecord(c, e, id', expires) && !(e == d && id' == id) { assert e == d ==> id' in c.leases[d] - {id}; }
    }
  }

  /**
   * What an acquisition is for: the entry stays, whatever happens, until the time asked for is over or that very pin is
   * given back.
   */
  lemma {:induction false} GrantedStays(h: Hash, max: nat, caches: seq<Cache>, events: seq<Event>, n: nat,
                                        d: Digest, seconds: int, now: int)
    requires Trace(h, max, caches, events) && 0 < n <= |events| && Addressed(h, caches[0])
    requires events[0] == Acquiring(d, seconds, now) && d in caches[0].content && 0 < seconds <= 3600
    requires forall i :: 1 <= i < n ==> Before(events[i], now + seconds) && events[i] != Releasing(d, caches[0].nextLease)
    ensures AcquireStep(caches[0], d, seconds, now).1 == Some(caches[0].nextLease)
    ensures d in caches[n].content && h(caches[n].content[d]) == d && OnRecord(caches[n], d, caches[0].nextLease, now + seconds)
  {
    assert CacheStep(h, max, caches[0], events[0], caches[1]);
    AcquirePins(h, caches[0], d, seconds, now);
    StepKeepsAddresses(h, max, caches[0], events[0], caches[1]);
    hide CacheStep, Addressed, AcquireStep;
    TailIsTrace(h, max, caches, events);
    PinnedEntriesStay(h, max, caches[1..], events[1..], n - 1, d, caches[0].nextLease, now + seconds);
  }

  lemma TailIsTrace(h: Hash, max: nat, caches: seq<Cache>, events: seq<Event>)
    requires Trace(h, max, caches, events) && events != []
    ensures Trace(h, max, caches[1..], events[1..])
  {
    hide CacheStep;
    forall i, j | 0 <= i < |events[1..]| && j == i + 1 ensures CacheStep(h, max, caches[1..][i], events[1..][i], caches[1..][j]) {
      assert CacheStep(h, max, caches[i + 1], events[i + 1], caches[j + 1]);
    }
  }

  /** Somebody may still be reading the entry. */
  predicate InUse(c: Cache, d: Digest, now: int) {
    exists id :: d in c.leases && id in c.leases[d] && now < c.leases[d][id]
  }

  /** What an eviction takes: only entries without a running pin, and all of those while the cache is too big. */
  lemma EvictionSparesPins(max: nat, c: Cache, now: int, removed: seq<Digest>, c': Cache)
    requires EvictStep(max, c, now, removed, c')
    ensures forall d :: d in c'.content ==> d in c.content && c'.content[d] == c.content[d]
    ensures forall d :: d in c.content && InUse(c, d, now) ==> d in c'.content
    ensures max < TotalSize(c'.content) ==> forall d :: d in c'.content ==> InUse(c, d, now)
  {
    hide TotalSize, Evicts, Unleased, OldestFirst, NeverFits;
    var order := EvictionOrder(max, c.content, c.access, c'.leases, removed);
    forall d ensures Leased(c'.leases, d) <==> InUse(c, d, now) { LeasedIsInUse(c, d, now); }
  }

  lemma LeasedIsInUse(c: Cache, d: Digest, now: int)
    ensures Leased(Purged(c.leases, now), d) <==> InUse(c, d, now)
  {
    if InUse(c, d, now) {
      var id :| d in c.leases && id in c.leases[d] && now < c.leases[d][id];
      PurgeIsExact(c.leases, now, d, id);
    } else if Leased(Purged(c.leases, now), d) {
      var id :| id in Purged(c.leases, now)[d];
      PurgeIsExact(c.leases, now, d, id);
    }
  }

  /** Reading an entry makes it the newest: the next eviction keeps it whenever it fits beside what is leased. */
  lemma ReadingRefreshes(h: Hash, max: nat, c: Cache, d: Digest, at: int, c': Cache, now: int, removed: seq<Digest>, c'': Cache)
    requires Addressed(h, c) && d in c.content && forall e :: e in c.content && e != d ==> c.access[e] < at
    requires CacheStep(h, max, c, Reading(d, at), c') && EvictStep(max, c', now, removed, c'')
    requires |c.content[d]| + LeasedBytes(c.content, c''.leases) <= max
    ensures d in c''.content
  {
    hide Evicts, TotalSize;
    NewestSurvives(max, c'.content, c'.access, c''.leases, removed, d);
  }
}
