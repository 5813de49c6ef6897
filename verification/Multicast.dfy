/** A multicast session: pieces for everybody, repairs for whoever missed some (pyfog/distribution.py). */
module Multicast {
  import opened Bytes
  import opened Transfer

  const MAX_REPAIR_INDICES: int := 4_096
  const MAX_RECEIVER_LENGTH: nat := 128

  /** The keyed tag of a session over a receiver and the indices asked for; nothing else is assumed about it. */
  type Tag = (string, seq<nat>) -> string

  /** A keyed digest always has digits. */
  ghost predicate TagsAreNotEmpty(tag: Tag) { forall who, indices :: tag(who, indices) != "" }

  datatype Receiver = Receiver(received: set<nat>, repairRequests: nat, duplicatePieces: nat, bytesReceived: nat)

  const NEWCOMER: Receiver := Receiver({}, 0, 0, 0)

  datatype Request = Request(session: nat, receiver: string, indices: seq<nat>, tag: string)

  type Receivers = map<string, Receiver>

  datatype Piece = New | Duplicate | BadPiece | Unknown

  /* ----- what a receiver still misses ----- */

  function MissingUpTo(r: Receiver, n: nat): (s: seq<nat>)
    ensures forall i: nat :: i in s <==> i < n && i !in r.received
    ensures forall i, j :: 0 <= i < j < |s| ==> s[i] < s[j]
  {
    if n == 0 then []
    else
      var before := MissingUpTo(r, n - 1);
      assert forall i :: 0 <= i < |before| ==> before[i] in before;
      before + if n - 1 in r.received then [] else [n - 1]
  }

  function MissingOf(m: TransferManifest, r: Receiver): seq<nat> { MissingUpTo(r, |m.blocks|) }

  function BytesOf(blocks: seq<TransferBlock>, received: set<nat>, n: nat): nat
    requires n <= |blocks|
  {
    if n == 0 then 0 else BytesOf(blocks, received, n - 1) + if n - 1 in received then blocks[n - 1].size else 0
  }

  /** Received and missing partition the block indices; bytes are counted once per block. */
  ghost predicate ReceiverOk(m: TransferManifest, r: Receiver) {
    && (forall i: nat :: i in r.received ==> i < |m.blocks|)
    && r.bytesReceived == BytesOf(m.blocks, r.received, |m.blocks|)
  }

  ghost predicate SessionOk(m: TransferManifest, s: Receivers) {
    forall id :: id in s ==> ReceiverOk(m, s[id])
  }

  /* ----- steps ----- */

  function AddReceiver(s: Receivers, id: string): (r: (Receivers, bool)) {
    if |id| == 0 || MAX_RECEIVER_LENGTH < |id| || id in s then (s, false) else (s[id := NEWCOMER], true)
  }

  function Receive(h: Hash, m: TransferManifest, s: Receivers, id: string, block: TransferBlock, payload: Bytes): (r: (Receivers, Piece)) {
    if id !in s then (s, Unknown)
    else if !Admissible(h, m, block, payload) then (s, BadPiece)
    else
      var x := s[id];
      if block.index in x.received then (s[id := x.(duplicatePieces := x.duplicatePieces + 1)], Duplicate)
      else (s[id := x.(received := x.received + {block.index}, bytesReceived := x.bytesReceived + |payload|)], New)
  }

  datatype Repair = Nothing | Ask(request: Request) | BadLimit | Malformed | NoReceiver

  /** A receiver that joined under another name can receive, but cannot ask for repairs. */
  predicate CanAsk(id: string) {
    forall i :: 0 <= i < |id| ==>
      var c := id[i];
      'A' <= c <= 'Z' || 'a' <= c <= 'z' || '0' <= c <= '9' || c == '.' || c == '_' || c == ':' || c == '-'
  }

  function Shortest(s: seq<nat>, n: nat): seq<nat> { if n < |s| then s[..n] else s }

  function RepairRequest(m: TransferManifest, session: nat, tag: Tag, s: Receivers, id: string, max: int): Repair {
    if id !in s then NoReceiver
    else
      var missing := MissingOf(m, s[id]);
      if missing == [] then Nothing
      else if max <= 0 || MAX_REPAIR_INDICES < max then BadLimit
      else if !CanAsk(id) then Malformed
      else
        var indices := Shortest(missing, max);
        Ask(Request(session, id, indices, tag(id, indices)))
  }

  /** A request is honoured: of this session, authentic, and for pieces the receiver still misses. */
  predicate Honoured(m: TransferManifest, session: nat, tag: Tag, s: Receivers, q: Request) {
    && q.session == session && q.receiver in s
    && q.tag != "" && q.tag == tag(q.receiver, q.indices)
    && forall k :: 0 <= k < |q.indices| ==> q.indices[k] in MissingOf(m, s[q.receiver])
  }

  function ValidateRepair(m: TransferManifest, session: nat, tag: Tag, s: Receivers, q: Request): (r: (Receivers, bool)) {
    if !Honoured(m, session, tag, s, q) then (s, false)
    else (s[q.receiver := s[q.receiver].(repairRequests := s[q.receiver].repairRequests + 1)], true)
  }

  class ReliableMulticastSession {
    const manifest: TransferManifest
    const sessionId: nat
    const repairTag: Tag
    var states: Receivers

    constructor (manifest: TransferManifest, sessionId: nat, repairTag: Tag)
      ensures this.manifest == manifest && this.sessionId == sessionId && this.repairTag == repairTag && states == map[]
    {
      this.manifest, this.sessionId, this.repairTag := manifest, sessionId, repairTag;
      states := map[];
    }

    method Add(id: string) returns (ok: bool)
      modifies this
      ensures (states, ok) == AddReceiver(old(states), id)
    {
      if |id| == 0 || MAX_RECEIVER_LENGTH < |id| { return false; }
      if id in states { return false; }
      states := states[id := NEWCOMER];
      return true;
    }

    method Take(h: Hash, id: string, block: TransferBlock, payload: Bytes) returns (piece: Piece)
      modifies this
      ensures (states, piece) == Receive(h, manifest, old(states), id, block, payload)
    {
      if id !in states { return Unknown; }
      if block.index >= |manifest.blocks| || manifest.blocks[block.index] != block { return BadPiece; }
      if |payload| != block.size || h(payload) != block.sha256 { return BadPiece; }
      var state := states[id];
      if block.index in state.received {
        states := states[id := state.(duplicatePieces := state.duplicatePieces + 1)];
        return Duplicate;
      }
      state := state.(received := state.received + {block.index});
      state := state.(bytesReceived := state.bytesReceived + |payload|);
      states := states[id := state];
      return New;
    }

    method Missing(id: string) returns (missing: seq<nat>)
      requires id in states && Tiles(manifest)
      ensures missing == MissingOf(manifest, states[id])
    {
      missing := [];
      for i := 0 to |manifest.blocks|
        invariant missing == MissingUpTo(states[id], i)
      {
        if manifest.blocks[i].index !in states[id].received { missing := missing + [manifest.blocks[i].index]; }
      }
    }

    method AskRepair(id: string, max: int) returns (repair: Repair)
      requires Tiles(manifest)
      ensures repair == RepairRequest(manifest, sessionId, repairTag, states, id, max)
    {
      if id !in states { return NoReceiver; }
      var missing := Missing(id);
      if missing == [] { return Nothing; }
      if max <= 0 || MAX_REPAIR_INDICES < max { return BadLimit; }
      if !CanAsk(id) { return Malformed; }
      var indices := Shortest(missing, max);
      return Ask(Request(sessionId, id, indices, repairTag(id, indices)));
    }

    method Validate(q: Request) returns (ok: bool)
      requires Tiles(manifest)
      modifies this
      ensures (states, ok) == ValidateRepair(manifest, sessionId, repairTag, old(states), q)
    {
      if q.session != sessionId { return false; }
      if q.receiver !in states { return false; }
      if q.tag == "" || q.tag != repairTag(q.receiver, q.indices) { return false; }
      var missing := Missing(q.receiver);
      for k := 0 to |q.indices|
        invariant states == old(states)
        invariant forall j :: 0 <= j < k ==> q.indices[j] in missing
      {
        if q.indices[k] !in missing { return false; }
      }
      var state := states[q.receiver];
      states := states[q.receiver := state.(repairRequests := state.repairRequests + 1)];
      return true;
    }
  }

  /* ----- invariants of a session ----- */

  lemma {:induction false} BytesFrame(blocks: seq<TransferBlock>, received: set<nat>, i: nat, n: nat)
    requires n <= |blocks| && i < |blocks| && i !in received
    ensures BytesOf(blocks, received + {i}, n) == BytesOf(blocks, received, n) + if i < n then blocks[i].size else 0
  {
    if n > 0 { BytesFrame(blocks, received, i, n - 1); }
  }

  /** A piece reaches one receiver only, is counted once, and keeps everybody's books in order. */
  lemma ReceiveKeepsSession(h: Hash, m: TransferManifest, s: Receivers, id: string, block: TransferBlock, payload: Bytes)
    requires SessionOk(m, s)
    ensures var (s', piece) := Receive(h, m, s, id, block, payload);
            && SessionOk(m, s') && s'.Keys == s.Keys
            && (forall other :: other in s && other != id ==> s'[other] == s[other])
            && (id in s ==> s[id].received <= s'[id].received && s[id].bytesReceived <= s'[id].bytesReceived)
            && (piece == New <==> id in s && Admissible(h, m, block, payload) && block.index !in s[id].received)
            && (piece == Unknown <==> id !in s) && (piece == BadPiece <==> id in s && !Admissible(h, m, block, payload))
            && (piece == New ==> s'[id] == s[id].(received := s[id].received + {block.index},
                                                  bytesReceived := s[id].bytesReceived + block.size))
            && (piece == Duplicate ==> s'[id].duplicatePieces == s[id].duplicatePieces + 1)
            && (piece != New && id in s ==> s'[id].received == s[id].received && s'[id].bytesReceived == s[id].bytesReceived)
  {
    hide BytesOf;
    if id in s && Admissible(h, m, block, payload) && block.index !in s[id].received {
      BytesFrame(m.blocks, s[id].received, block.index, |m.blocks|);
    }
  }

  lemma OthersKeepSession(m: TransferManifest, session: nat, tag: Tag, s: Receivers, id: string, q: Request)
    requires SessionOk(m, s)
    ensures SessionOk(m, AddReceiver(s, id).0) && SessionOk(m, ValidateRepair(m, session, tag, s, q).0)
  {
    assert BytesOf(m.blocks, {}, |m.blocks|) == 0 by { NoBytes(m.blocks, |m.blocks|); }
    hide BytesOf;
  }

  lemma {:induction false} NoBytes(blocks: seq<TransferBlock>, n: nat)
    requires n <= |blocks|
    ensures BytesOf(blocks, {}, n) == 0
  {
    if n > 0 { NoBytes(blocks, n - 1); }
  }

  /** Blocks fill the artifact, so bytes received fall short of the end by the blocks that are missing. */
  lemma {:induction false} BytesShort(blocks: seq<TransferBlock>, r: Receiver, n: nat)
    requires Chained(blocks) && n <= |blocks|
    ensures var end := if n == 0 then 0 else blocks[n - 1].End();
            && BytesOf(blocks, r.received, n) <= end
            && (BytesOf(blocks, r.received, n) == end <==> MissingUpTo(r, n) == [])
  {
    if n > 0 { BytesShort(blocks, r, n - 1); }
  }

  /** A receiver is complete exactly when its byte count is the artifact's size, and then it has every block. */
  lemma CompleteIffAllBytes(m: TransferManifest, r: Receiver)
    requires Tiles(m) && ReceiverOk(m, r)
    ensures MissingOf(m, r) == [] <==> r.bytesReceived == m.sizeBytes
    ensures r.bytesReceived <= m.sizeBytes
    ensures forall i: nat :: i < |m.blocks| <==> (i in r.received) != (i in MissingOf(m, r))
  {
    BytesShort(m.blocks, r, |m.blocks|);
    if MissingOf(m, r) == [] {
      assert forall i: nat :: i < |m.blocks| ==> i !in MissingOf(m, r);
    } else {
      assert MissingOf(m, r)[0] in MissingOf(m, r);
    }
  }

  /* ----- repair ----- */

  datatype Event = Joined(who: string) | Arrived(id: string, block: TransferBlock, payload: Bytes) | Asked(q: Request)

  function Next(h: Hash, m: TransferManifest, session: nat, tag: Tag, s: Receivers, e: Event): Receivers {
    match e
    case Joined(id) => AddReceiver(s, id).0
    case Arrived(id, block, payload) => Receive(h, m, s, id, block, payload).0
    case Asked(q) => ValidateRepair(m, session, tag, s, q).0
  }

  function Run(h: Hash, m: TransferManifest, session: nat, tag: Tag, s: Receivers, events: seq<Event>): Receivers
    decreases |events|
  {
    if events == [] then s
    else Next(h, m, session, tag, Run(h, m, session, tag, s, events[..|events| - 1]), events[|events| - 1])
  }

  /** A run keeps the books, loses no receiver, and takes nothing back from one. */
  lemma {:induction false} RunKeepsSession(h: Hash, m: TransferManifest, session: nat, tag: Tag, s: Receivers, events: seq<Event>)
    requires SessionOk(m, s)
    ensures var s' := Run(h, m, session, tag, s, events);
            SessionOk(m, s') && forall id :: id in s ==> id in s' && s[id].received <= s'[id].received
    decreases |events|
  {
    if events != [] {
      var before, e := Run(h, m, session, tag, s, events[..|events| - 1]), events[|events| - 1];
      RunKeepsSession(h, m, session, tag, s, events[..|events| - 1]);
      match e
      case Joined(id) => OthersKeepSession(m, session, tag, before, id, Request(0, "", [], ""));
      case Arrived(id, block, payload) => ReceiveKeepsSession(h, m, before, id, block, payload);
      case Asked(q) => OthersKeepSession(m, session, tag, before, "", q);
    }
  }

  /** Who may join, and that a newcomer misses everything. */
  lemma JoiningMissesAll(m: TransferManifest, s: Receivers, id: string)
    ensures var (s', ok) := AddReceiver(s, id);
            && (ok <==> 1 <= |id| <= 128 && id !in s)
            && (!ok ==> s' == s)
            && (ok ==> s'.Keys == s.Keys + {id} && (forall other :: other in s ==> s'[other] == s[other])
                       && s'[id].bytesReceived == 0 && s'[id].duplicatePieces == 0 && s'[id].repairRequests == 0
                       && forall i: nat :: i < |m.blocks| <==> i in MissingOf(m, s'[id]))
  {
  }

  /** When the sender answers a repair request: its session, a known receiver, the right tag, and pieces that one lacks. */
  lemma RepairDecision(m: TransferManifest, session: nat, tag: Tag, s: Receivers, q: Request)
    ensures var (s', ok) := ValidateRepair(m, session, tag, s, q);
            && (ok <==> && q.session == session && q.receiver in s && q.tag != "" && q.tag == tag(q.receiver, q.indices)
                        && forall k :: 0 <= k < |q.indices| ==>
                                         q.indices[k] < |m.blocks| && q.indices[k] !in s[q.receiver].received)
            && (!ok ==> s' == s)
            && (ok ==> s'.Keys == s.Keys && (forall other :: other in s && other != q.receiver ==> s'[other] == s[other])
                       && s'[q.receiver] == s[q.receiver].(repairRequests := s[q.receiver].repairRequests + 1))
  {
  }

  /** A request altered under way is refused, or its tag is also the tag of what it was altered to. */
  lemma TamperedIsRefused(m: TransferManifest, session: nat, tag: Tag, s: Receivers, id: string, max: int, later: Receivers, q': Request)
    requires RepairRequest(m, session, tag, s, id, max).Ask?
    requires ValidateRepair(m, session, tag, later, q').1
    ensures var q := RepairRequest(m, session, tag, s, id, max).request;
            && q'.session == q.session
            && (q'.receiver == q.receiver && q'.indices == q.indices ==> q' == q)
            && (q'.tag == q.tag ==> tag(q'.receiver, q'.indices) == tag(q.receiver, q.indices))
  {
    RepairDecision(m, session, tag, later, q');
  }

  /** When a receiver gets a request at all. */
  lemma AskingDecision(m: TransferManifest, session: nat, tag: Tag, s: Receivers, id: string, max: int)
    ensures RepairRequest(m, session, tag, s, id, max).Ask? <==>
              && id in s && !(forall i: nat :: i < |m.blocks| ==> i in s[id].received) && 0 < max <= 4096 && CanAsk(id)
    ensures RepairRequest(m, session, tag, s, id, max).Nothing? <==>
              id in s && forall i: nat :: i < |m.blocks| ==> i in s[id].received
  {
    if id in s {
      var missing := MissingOf(m, s[id]);
      if missing != [] { assert missing[0] in missing; }
    }
  }

  /**
   * A request the session made stays valid until one of its pieces arrives, and not a moment longer, whatever else
   * happens in the session meanwhile.
   */
  lemma {:induction false} RequestLifetime(h: Hash, m: TransferManifest, session: nat, tag: Tag, s: Receivers, id: string, max: int,
                                           events: seq<Event>)
    requires SessionOk(m, s) && RepairRequest(m, session, tag, s, id, max).Ask?
    requires TagsAreNotEmpty(tag)
    ensures var q := RepairRequest(m, session, tag, s, id, max).request;
            var s' := Run(h, m, session, tag, s, events);
            && Honoured(m, session, tag, s, q) && q.indices != [] && |q.indices| <= max
            && id in s'
            && (Honoured(m, session, tag, s', q) <==> forall k :: 0 <= k < |q.indices| ==> q.indices[k] !in s'[id].received)
  {
    RunKeepsSession(h, m, session, tag, s, events);
    hide Run;
    var missing := MissingOf(m, s[id]);
    var q := RepairRequest(m, session, tag, s, id, max).request;
    assert forall k :: 0 <= k < |q.indices| ==> q.indices[k] == missing[k] && missing[k] in missing;
  }

  /** The pieces of a request, sent to the one who asked. */
  function Deliver(h: Hash, m: TransferManifest, s: Receivers, id: string, content: Bytes, indices: seq<nat>): Receivers
    requires Tiles(m) && |content| == m.sizeBytes && forall k :: 0 <= k < |indices| ==> indices[k] < |m.blocks|
  {
    if indices == [] then s
    else
      var before := Deliver(h, m, s, id, content, indices[..|indices| - 1]);
      var block := m.blocks[indices[|indices| - 1]];
      BlockInside(m, indices[|indices| - 1]);
      Receive(h, m, before, id, block, content[block.offset..block.End()]).0
  }

  /** Whatever order they come in, delivered pieces are received. */
  lemma {:induction false} DeliverReceives(h: Hash, m: TransferManifest, s: Receivers, id: string, content: Bytes, indices: seq<nat>)
    requires Describes(h, m, content) && id in s && SessionOk(m, s)
    requires forall k :: 0 <= k < |indices| ==> indices[k] < |m.blocks|
    ensures var s' := Deliver(h, m, s, id, content, indices);
            && SessionOk(m, s') && id in s'
            && (forall i: nat :: i in s'[id].received <==> i in s[id].received || i in indices)
            && forall other :: other in s && other != id ==> other in s' && s'[other] == s[other]
  {
    hide BytesOf, ReceiverOk;
    if indices != [] {
      var last := indices[|indices| - 1];
      var front := indices[..|indices| - 1];
      DeliverReceives(h, m, s, id, content, front);
      BlockInside(m, last);
      var block := m.blocks[last];
      var before := Deliver(h, m, s, id, content, front);
      ReceiveKeepsSession(h, m, before, id, block, content[block.offset..block.End()]);
      assert indices == front + [last];
    }
  }

  /** Repair rounds in which nothing is lost: ask, let the sender validate, deliver what was asked for, ask again. */
  function Rounds(h: Hash, m: TransferManifest, session: nat, tag: Tag, s: Receivers, id: string, content: Bytes,
                  max: int, n: nat): Receivers
    requires Tiles(m) && |content| == m.sizeBytes
  {
    if n == 0 then s
    else
      var before := Rounds(h, m, session, tag, s, id, content, max, n - 1);
      match RepairRequest(m, session, tag, before, id, max)
      case Ask(q) =>
        var (validated, ok) := ValidateRepair(m, session, tag, before, q);
        assert forall k :: 0 <= k < |q.indices| ==> q.indices[k] in MissingOf(m, before[id]);
        if ok then Deliver(h, m, validated, id, content, q.indices) else validated
      case _ => before
  }

  function Drop(s: seq<nat>, k: int): seq<nat> { if k <= 0 then s else if k < |s| then s[k..] else [] }

  predicate Ascending(s: seq<nat>) { forall i, j :: 0 <= i < j < |s| ==> s[i] < s[j] }

  /** An ascending sequence is determined by its members. */
  lemma {:induction false} AscendingUnique(s: seq<nat>, t: seq<nat>)
    requires Ascending(s) && Ascending(t) && forall x :: x in s <==> x in t
    ensures s == t
  {
    SameEmptiness(s, t);
    SameEmptiness(t, s);
    if s != [] {
      var front, front' := s[..|s| - 1], t[..|t| - 1];
      SameLast(s, t);
      SameLast(t, s);
      forall x | x in front ensures x in front' { FrontMembers(s, x); FrontMembers(t, x); }
      forall x | x in front' ensures x in front { FrontMembers(s, x); FrontMembers(t, x); }
      AscendingUnique(front, front');
      assert s == front + [s[|s| - 1]] && t == front' + [t[|t| - 1]];
    }
  }

  lemma SameEmptiness(s: seq<nat>, t: seq<nat>)
    requires forall x :: x in t ==> x in s
    ensures s == [] ==> t == []
  {
    if t != [] { assert t[0] in t; }
  }

  lemma SameLast(s: seq<nat>, t: seq<nat>)
    requires Ascending(s) && Ascending(t) && s != [] && t != [] && forall x :: x in s <==> x in t
    ensures s[|s| - 1] <= t[|t| - 1]
  {
    assert s[|s| - 1] in t;
  }

  lemma FrontMembers(s: seq<nat>, x: nat)
    requires Ascending(s) && s != []
    ensures x in s[..|s| - 1] <==> x in s && x != s[|s| - 1]
  {
  }

  lemma TailMembers(s: seq<nat>, k: nat, x: nat)
    requires Ascending(s) && k <= |s|
    ensures x in s[k..] <==> x in s && x !in s[..k]
  {
    assert s == s[..k] + s[k..];
  }

  /** One round takes the first `k` missing indices off the list. */
  lemma MissingAfter(r: Receiver, r': Receiver, n: nat, k: nat)
    requires k <= |MissingUpTo(r, n)|
    requires forall i: nat :: i in r'.received <==> i in r.received || i in MissingUpTo(r, n)[..k]
    ensures MissingUpTo(r', n) == MissingUpTo(r, n)[k..]
  {
    hide MissingUpTo;
    var all, left := MissingUpTo(r, n), MissingUpTo(r', n);
    forall x ensures x in left <==> x in all[k..] { TailMembers(all, k, x); }
    AscendingUnique(left, all[k..]);
  }

  /** The sender accepts a request it has just been asked, and only counts it. */
  lemma AskedIsValid(m: TransferManifest, session: nat, tag: Tag, s: Receivers, id: string, max: int)
    requires SessionOk(m, s) && TagsAreNotEmpty(tag) && RepairRequest(m, session, tag, s, id, max).Ask?
    ensures var (s', ok) := ValidateRepair(m, session, tag, s, RepairRequest(m, session, tag, s, id, max).request);
            && ok && SessionOk(m, s') && id in s' && s'[id].received == s[id].received
            && s'[id].repairRequests == s[id].repairRequests + 1
            && forall other :: other in s && other != id ==> other in s' && s'[other] == s[other]
  {
    hide MissingUpTo, BytesOf;
    var missing := MissingOf(m, s[id]);
    var q := RepairRequest(m, session, tag, s, id, max).request;
    OthersKeepSession(m, session, tag, s, "", q);
    assert forall k :: 0 <= k < |q.indices| ==> q.indices[k] == missing[k] && missing[k] in missing;
  }

  lemma OneRound(h: Hash, m: TransferManifest, session: nat, tag: Tag, s: Receivers, id: string, content: Bytes, max: int)
    requires Describes(h, m, content) && SessionOk(m, s) && id in s && 0 < max <= MAX_REPAIR_INDICES && CanAsk(id)
    requires TagsAreNotEmpty(tag)
    ensures var s' := Rounds(h, m, session, tag, s, id, content, max, 1);
            var missing := MissingOf(m, s[id]);
            && SessionOk(m, s') && id in s'
            && MissingOf(m, s'[id]) == Drop(missing, max)
            && forall other :: other in s && other != id ==> other in s' && s'[other] == s[other]
  {
    hide MissingUpTo, ValidateRepair, SessionOk;
    var missing := MissingOf(m, s[id]);
    var s' := Rounds(h, m, session, tag, s, id, content, max, 1);
    assert Rounds(h, m, session, tag, s, id, content, max, 0) == s;
    if missing != [] {
      var indices := Shortest(missing, max);
      assert forall k :: 0 <= k < |indices| ==> indices[k] in missing;
      AskedIsValid(m, session, tag, s, id, max);
      var validated := ValidateRepair(m, session, tag, s, Request(session, id, indices, tag(id, indices))).0;
      DeliverReceives(h, m, validated, id, content, indices);
      MissingAfter(s[id], s'[id], |m.blocks|, |indices|);
    }
  }

  lemma {:induction false} RoundsCompose(h: Hash, m: TransferManifest, session: nat, tag: Tag, s: Receivers, id: string, content: Bytes,
                                         max: int, n: nat)
    requires Tiles(m) && |content| == m.sizeBytes
    ensures Rounds(h, m, session, tag, s, id, content, max, n + 1)
         == Rounds(h, m, session, tag, Rounds(h, m, session, tag, s, id, content, max, n), id, content, max, 1)
  {
    assert Rounds(h, m, session, tag, Rounds(h, m, session, tag, s, id, content, max, n), id, content, max, 0)
        == Rounds(h, m, session, tag, s, id, content, max, n);
  }

  /** After `n` lossless rounds exactly the first `n * max` missing pieces have come in. */
  lemma {:induction false} RoundsRepair(h: Hash, m: TransferManifest, session: nat, tag: Tag, s: Receivers, id: string, content: Bytes,
                                        max: int, n: nat)
    requires Describes(h, m, content) && SessionOk(m, s) && id in s && 0 < max <= MAX_REPAIR_INDICES && CanAsk(id)
    requires TagsAreNotEmpty(tag)
    ensures var s' := Rounds(h, m, session, tag, s, id, content, max, n);
            var missing := MissingOf(m, s[id]);
            && SessionOk(m, s') && id in s'
            && MissingOf(m, s'[id]) == Drop(missing, n * max)
            && forall other :: other in s && other != id ==> other in s' && s'[other] == s[other]
  {
    hide MissingOf, Rounds, Tiles, Chained, SessionOk, CanAsk, Drop;
    if n == 0 {
      DropNone(MissingOf(m, s[id]), max);
      NoRounds(h, m, session, tag, s, id, content, max);
    } else {
      RoundsRepair(h, m, session, tag, s, id, content, max, n - 1);
      RoundsCompose(h, m, session, tag, s, id, content, max, n - 1);
      OneRound(h, m, session, tag, Rounds(h, m, session, tag, s, id, content, max, n - 1), id, content, max);
      DropTwice(MissingOf(m, s[id]), (n - 1) * max, max);
      assert n * max == (n - 1) * max + max;
    }
  }

  lemma DropNone(s: seq<nat>, max: int)
    ensures Drop(s, 0 * max) == s
  {
  }

  lemma DropTwice(s: seq<nat>, a: int, b: int)
    requires 0 <= a && 0 <= b
    ensures Drop(Drop(s, a), b) == Drop(s, a + b)
  {
  }

  lemma NoRounds(h: Hash, m: TransferManifest, session: nat, tag: Tag, s: Receivers, id: string, content: Bytes, max: int)
    requires Tiles(m) && |content| == m.sizeBytes
    ensures Rounds(h, m, session, tag, s, id, content, max, 0) == s
  {
  }

  /** Repair finishes in exactly as many lossless rounds as requests are needed to name every missing piece. */
  lemma RepairFinishes(h: Hash, m: TransferManifest, session: nat, tag: Tag, s: Receivers, id: string, content: Bytes, max: int, n: nat)
    requires Describes(h, m, content) && SessionOk(m, s) && id in s && 0 < max <= MAX_REPAIR_INDICES && CanAsk(id)
    requires TagsAreNotEmpty(tag)
    ensures id in Rounds(h, m, session, tag, s, id, content, max, n)
    ensures MissingOf(m, Rounds(h, m, session, tag, s, id, content, max, n)[id]) == []
            <==> BlockCount(|MissingOf(m, s[id])|, max) <= n
  {
    hide Rounds, MissingOf, Describes, SessionOk, CanAsk, BlockCount;
    RoundsRepair(h, m, session, tag, s, id, content, max, n);
    CeilingDivides(|MissingOf(m, s[id])|, max, n);
  }

  lemma CeilingDivides(count: nat, max: nat, n: nat)
    requires 0 < max
    ensures BlockCount(count, max) <= n <==> count <= n * max
  {
    var q, r := (count + max - 1) / max, (count + max - 1) % max;
    assert count + max - 1 == q * max + r;
    if q <= n { assert q * max <= n * max; } else { assert (n + 1) * max <= q * max; }
  }
}
