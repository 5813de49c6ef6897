/** All-or-nothing mapping of captured disks onto target disks by stable identity (pyfog/disk_mapping.py). */
module DiskMapping {
  import opened Bytes

  /** One inventory entry; None stands for a value that is missing or not of the expected kind. */
  datatype Disk = Disk(stableId: Option<string>, wwn: string, serial: string, path: Option<string>,
                       removable: bool, size: Option<int>, sector: Option<int>)

  datatype Entry = Entry(sourceId: string, sourceSize: int, targetId: string, targetPath: string, targetSize: int, sector: int)

  function StableId(d: Disk): Option<string> {
    if d.stableId.Some? && d.stableId.value != "" then d.stableId
    else if d.wwn != "" then Some("wwn:" + d.wwn)
    else if d.serial != "" then Some("serial:" + d.serial)
    else None
  }

  /** Without identities of their own, disks are told apart by WWN where there is one, else by serial; never one by the other. */
  lemma SameIdentity(d: Disk, e: Disk)
    requires d.stableId.None? && e.stableId.None? && StableId(d).Some?
    ensures StableId(d) == StableId(e) <==> if d.wwn != "" then e.wwn == d.wwn else e.wwn == "" && e.serial == d.serial
  {
    assert "wwn:"[0] != "serial:"[0];
    assert ("wwn:" + d.wwn)[4..] == d.wwn && ("wwn:" + e.wwn)[4..] == e.wwn;
    assert ("serial:" + d.serial)[7..] == d.serial && ("serial:" + e.serial)[7..] == e.serial;
  }

  predicate PathLike(id: string) { "path:" <= id }

  /** An identity that does not depend on detection order. */
  function SourceId(d: Disk): Option<string> {
    var id := StableId(d);
    if id.Some? && PathLike(id.value) then None else id
  }

  predicate SizeOk(d: Disk) { d.size.Some? && d.size.value > 0 }

  predicate SectorOk(d: Disk) { d.sector.Some? && (d.sector.value == 512 || d.sector.value == 4096) }

  predicate PathOk(d: Disk) { d.path.Some? && "/dev/" <= d.path.value }

  predicate Distinct(ids: seq<string>) { forall i, j :: 0 <= i < j < |ids| ==> ids[i] != ids[j] }

  /** This target can take this source. */
  predicate Fits(source: Disk, target: Disk, larger: bool) {
    && StableId(source).Some? && StableId(target) == StableId(source)
    && !target.removable
    && SizeOk(source) && SizeOk(target)
    && source.size.value <= target.size.value && (larger || target.size == source.size)
    && SectorOk(source) && target.sector == source.sector
    && PathOk(target)
  }

  /** The entry writes this source to this target: identity, sizes, device path and sector size, field by field. */
  predicate Writes(entry: Entry, source: Disk, target: Disk) {
    && StableId(source) == Some(entry.sourceId) && StableId(target) == Some(entry.targetId) && entry.sourceId == entry.targetId
    && source.size == Some(entry.sourceSize) && target.size == Some(entry.targetSize)
    && target.path == Some(entry.targetPath)
    && source.sector == Some(entry.sector) && target.sector == Some(entry.sector)
  }

  /** What makes an entry safe to carry out. */
  predicate Safe(entry: Entry, target: Disk, larger: bool) {
    && !target.removable && "/dev/" <= entry.targetPath && (entry.sector == 512 || entry.sector == 4096)
    && 0 < entry.sourceSize <= entry.targetSize && (larger || entry.sourceSize == entry.targetSize)
  }

  /** A target fits exactly when some safe entry writes the source to it; that entry is the only one. */
  lemma FittingIsSafe(source: Disk, target: Disk, larger: bool)
    ensures Fits(source, target, larger) <==> exists entry :: Writes(entry, source, target) && Safe(entry, target, larger)
    ensures forall e, e' :: Writes(e, source, target) && Writes(e', source, target) ==> e == e'
  {
    if Fits(source, target, larger) {
      var id := StableId(source).value;
      var entry := Entry(id, source.size.value, id, target.path.value, target.size.value, source.sector.value);
      assert Writes(entry, source, target) && Safe(entry, target, larger);
    }
  }

  predicate Identified(sources: seq<Disk>, targets: seq<Disk>) {
    && (forall i :: 0 <= i < |sources| ==> SourceId(sources[i]).Some?)
    && (forall i, j :: 0 <= i < j < |sources| ==> StableId(sources[i]) != StableId(sources[j]))
    && (forall i :: 0 <= i < |targets| ==> StableId(targets[i]).Some?)
    && forall i, j :: 0 <= i < j < |targets| ==> StableId(targets[i]) != StableId(targets[j])
  }

  predicate Takes(targets: seq<Disk>, source: Disk, larger: bool) {
    exists j :: 0 <= j < |targets| && Fits(source, targets[j], larger)
  }

  /** When a plan exists: as many targets as sources, unambiguous identities, and a fitting target for every source. */
  predicate Plannable(sources: seq<Disk>, targets: seq<Disk>, larger: bool) {
    && sources != [] && |sources| == |targets| && Identified(sources, targets)
    && forall i :: 0 <= i < |sources| ==> Takes(targets, sources[i], larger)
  }

  predicate Planned(targets: seq<Disk>, source: Disk, larger: bool, entry: Entry) {
    exists j :: 0 <= j < |targets| && Fits(source, targets[j], larger) && Writes(entry, source, targets[j])
  }

  /** Source by source, the plan writes to the target with the same identity. */
  ghost predicate IsPlan(sources: seq<Disk>, targets: seq<Disk>, larger: bool, plan: seq<Entry>) {
    |plan| == |sources| && forall i :: 0 <= i < |sources| ==> Planned(targets, sources[i], larger, plan[i])
  }

  /** The identities of a list of disks; None when one has none or one repeats. */
  method Identities(disks: seq<Disk>, strict: bool) returns (r: Option<seq<string>>)
    ensures r.Some? <==> (forall i :: 0 <= i < |disks| ==> (if strict then SourceId(disks[i]) else StableId(disks[i])).Some?)
                         && forall i, j :: 0 <= i < j < |disks| ==> StableId(disks[i]) != StableId(disks[j])
    ensures r.Some? ==> |r.value| == |disks| && forall i :: 0 <= i < |disks| ==> StableId(disks[i]) == Some(r.value[i])
  {
    var ids: seq<string> := [];
    for i := 0 to |disks|
      invariant |ids| == i
      invariant forall k :: 0 <= k < i ==> StableId(disks[k]) == Some(ids[k]) && (strict ==> SourceId(disks[k]).Some?)
    {
      var id := if strict then SourceId(disks[i]) else StableId(disks[i]);
      if id.None? { return None; }
      ids := ids + [id.value];
    }
    if !Distinct(ids) { return None; }
    return Some(ids);
  }

  /** `plan_multi_disk_restore`: nothing is planned unless everything is. */
  method PlanMultiDiskRestore(sources: seq<Disk>, targets: seq<Disk>, larger: bool) returns (r: Option<seq<Entry>>)
    ensures r.Some? <==> Plannable(sources, targets, larger)
    ensures r.Some? ==> IsPlan(sources, targets, larger, r.value)
    ensures r.Some? ==> forall i :: 0 <= i < |r.value| ==> !("path:" <= r.value[i].sourceId)
    ensures r.Some? ==> |r.value| == |sources| && forall i, j :: 0 <= i < |sources| && 0 <= j < |targets| ==>
                          (StableId(targets[j]) == StableId(sources[i]) ==>
                             Writes(r.value[i], sources[i], targets[j]) && Safe(r.value[i], targets[j], larger))
  {
    if |sources| == 0 || |sources| != |targets| { return None; }
    var sourceIds := Identities(sources, true);
    if sourceIds.None? { return None; }
    var targetIds := Identities(targets, false);
    if targetIds.None? { return None; }
    var byId: map<string, Disk> := map[];
    for j := 0 to |targets|
      invariant forall k :: 0 <= k < j ==> targetIds.value[k] in byId && byId[targetIds.value[k]] == targets[k]
      invariant forall id :: id in byId ==> exists k :: 0 <= k < j && targetIds.value[k] == id
    {
      byId := byId[targetIds.value[j] := targets[j]];
    }
    var plan: seq<Entry> := [];
    for i := 0 to |sources|
      invariant |plan| == i
      invariant forall k :: 0 <= k < i ==> Planned(targets, sources[k], larger, plan[k]) && Takes(targets, sources[k], larger)
    {
      var source, id := sources[i], sourceIds.value[i];
      if id !in byId {
        NoTarget(targets, targetIds.value, source, id, larger);
        return None;
      }
      var target := byId[id];
      ghost var j :| 0 <= j < |targets| && targetIds.value[j] == id;
      OnlyTarget(targets, source, j, larger);
      if target.removable { return None; }
      if !SizeOk(source) || !SizeOk(target) { return None; }
      if target.size.value < source.size.value || (!larger && target.size != source.size) { return None; }
      if !SectorOk(source) || !SectorOk(target) || target.sector != source.sector { return None; }
      if !PathOk(target) { return None; }
      plan := plan + [Entry(id, source.size.value, id, target.path.value, target.size.value, source.sector.value)];
      assert Writes(plan[i], source, targets[j]);
    }
    PlanWrites(sources, targets, larger, plan);
    return Some(plan);
  }

  lemma NoTarget(targets: seq<Disk>, ids: seq<string>, source: Disk, id: string, larger: bool)
    requires |ids| == |targets| && forall j :: 0 <= j < |targets| ==> StableId(targets[j]) == Some(ids[j]) && ids[j] != id
    requires StableId(source) == Some(id)
    ensures !Takes(targets, source, larger)
  {
  }

  /** With distinct identities only one target comes into question. */
  lemma OnlyTarget(targets: seq<Disk>, source: Disk, j: nat, larger: bool)
    requires j < |targets| && StableId(targets[j]) == StableId(source)
    requires forall i, k :: 0 <= i < k < |targets| ==> StableId(targets[i]) != StableId(targets[k])
    ensures Takes(targets, source, larger) <==> Fits(source, targets[j], larger)
  {
  }

  /* ----- an accepted plan uses every target exactly once ----- */

  lemma {:induction false} DistinctCount(ids: seq<string>)
    requires Distinct(ids)
    ensures |set id | id in ids| == |ids|
  {
    if ids != [] {
      var front, last := ids[..|ids| - 1], ids[|ids| - 1];
      DistinctCount(front);
      assert (set id | id in ids) == (set id | id in front) + {last};
    }
  }

  /** Pigeonhole: distinct names of a list that all occur in another of the same length are all of its names. */
  lemma Pigeonhole(a: seq<string>, b: seq<string>)
    requires Distinct(a) && Distinct(b) && |a| == |b| && forall x :: x in a ==> x in b
    ensures forall x :: x in b ==> x in a
  {
    var inA, inB := set x | x in a, set x | x in b;
    DistinctCount(a);
    DistinctCount(b);
    assert inA <= inB;
    assert |inB - inA| == |inB| - |inA|;
    assert forall x :: x in b ==> x in inB;
    assert forall x :: x in inB && x !in inA ==> x in inB - inA;
  }

  function Ids(disks: seq<Disk>): (ids: seq<string>)
    requires forall i :: 0 <= i < |disks| ==> StableId(disks[i]).Some?
    ensures |ids| == |disks| && forall i :: 0 <= i < |disks| ==> StableId(disks[i]) == Some(ids[i])
  {
    if disks == [] then [] else Ids(disks[..|disks| - 1]) + [StableId(disks[|disks| - 1]).value]
  }

  lemma MatchingSource(sources: seq<Disk>, targets: seq<Disk>, larger: bool, j: nat) returns (i: nat)
    requires Plannable(sources, targets, larger) && j < |targets|
    ensures i < |sources| && StableId(sources[i]) == StableId(targets[j])
  {
    assert forall i :: 0 <= i < |sources| ==> SourceId(sources[i]).Some?;
    var a, b := Ids(sources), Ids(targets);
    hide Fits, SourceId, StableId, Ids;
    forall x | x in a ensures x in b {
      var k :| 0 <= k < |a| && a[k] == x;
      var n := FittingTarget(targets, sources[k], larger);
      assert b[n] == x;
    }
    Pigeonhole(a, b);
    assert b[j] in b;
    i :| 0 <= i < |a| && a[i] == b[j];
  }

  lemma FittingTarget(targets: seq<Disk>, source: Disk, larger: bool) returns (j: nat)
    requires Takes(targets, source, larger)
    ensures j < |targets| && Fits(source, targets[j], larger) && StableId(targets[j]) == StableId(source)
  {
    j :| 0 <= j < |targets| && Fits(source, targets[j], larger);
  }

  lemma PlannedAt(targets: seq<Disk>, source: Disk, larger: bool, entry: Entry, j: nat)
    requires Planned(targets, source, larger, entry) && j < |targets| && StableId(targets[j]) == StableId(source)
    requires forall i, k :: 0 <= i < k < |targets| ==> StableId(targets[i]) != StableId(targets[k])
    ensures Writes(entry, source, targets[j]) && Safe(entry, targets[j], larger)
  {
    var k :| 0 <= k < |targets| && Fits(source, targets[k], larger) && Writes(entry, source, targets[k]);
    assert k == j;
  }

  /** Source by source, the plan writes to the target with its identity. */
  lemma PlanWrites(sources: seq<Disk>, targets: seq<Disk>, larger: bool, plan: seq<Entry>)
    requires Identified(sources, targets) && IsPlan(sources, targets, larger, plan)
    ensures forall i, j :: 0 <= i < |sources| && 0 <= j < |targets| ==>
              (StableId(targets[j]) == StableId(sources[i]) ==>
                 Writes(plan[i], sources[i], targets[j]) && Safe(plan[i], targets[j], larger))
    ensures forall i :: 0 <= i < |plan| ==> !("path:" <= plan[i].sourceId)
  {
    assert forall i :: 0 <= i < |sources| ==> SourceId(sources[i]).Some?;
    forall i | 0 <= i < |plan| ensures !("path:" <= plan[i].sourceId) { PlannedId(targets, sources[i], larger, plan[i]); }
    hide Planned, Writes, Safe, Fits, StableId, SourceId;
    forall i, j | 0 <= i < |sources| && 0 <= j < |targets| && StableId(targets[j]) == StableId(sources[i])
      ensures Writes(plan[i], sources[i], targets[j]) && Safe(plan[i], targets[j], larger)
    {
      PlannedAt(targets, sources[i], larger, plan[i], j);
    }
  }

  lemma PlannedId(targets: seq<Disk>, source: Disk, larger: bool, entry: Entry)
    requires Planned(targets, source, larger, entry)
    ensures Some(entry.targetId) == StableId(source) && entry.sourceId == entry.targetId
  {
  }

  /** An accepted plan is a bijection: every target disk is written by exactly one entry. */
  lemma {:induction false} PlanIsBijection(sources: seq<Disk>, targets: seq<Disk>, larger: bool, plan: seq<Entry>, j: nat)
    requires Plannable(sources, targets, larger) && IsPlan(sources, targets, larger, plan) && j < |targets|
    ensures exists i :: 0 <= i < |plan| && Writes(plan[i], sources[i], targets[j]) && Safe(plan[i], targets[j], larger)
    ensures forall i, k :: 0 <= i < k < |plan| ==> plan[i].targetId != plan[k].targetId && plan[i].sourceId != plan[k].sourceId
  {
    hide Takes, Planned, Fits, StableId, SourceId, Writes, Safe;
    var i := MatchingSource(sources, targets, larger, j);
    PlannedAt(targets, sources[i], larger, plan[i], j);
    forall n | 0 <= n < |plan| ensures Some(plan[n].targetId) == StableId(sources[n]) && plan[n].sourceId == plan[n].targetId {
      PlannedId(targets, sources[n], larger, plan[n]);
    }
  }

  predicate DistinctPaths(targets: seq<Disk>) {
    forall i, j :: 0 <= i < j < |targets| ==> targets[i].path != targets[j].path
  }

  predicate Written(plan: seq<Entry>, target: Disk) {
    exists i :: 0 <= i < |plan| && Some(plan[i].targetPath) == target.path
  }

  /** When the targets have distinct device paths, each path is written by exactly one entry. */
  lemma {:induction false} PathsWrittenOnce(sources: seq<Disk>, targets: seq<Disk>, larger: bool, plan: seq<Entry>)
    requires Plannable(sources, targets, larger) && IsPlan(sources, targets, larger, plan) && DistinctPaths(targets)
    ensures forall j :: 0 <= j < |targets| ==> Written(plan, targets[j])
    ensures forall i, k :: 0 <= i < k < |plan| ==> plan[i].targetPath != plan[k].targetPath
  {
    hide Plannable, DistinctPaths, Safe, StableId, Planned;
    forall j | 0 <= j < |targets| ensures Written(plan, targets[j]) {
      PlanIsBijection(sources, targets, larger, plan, j);
      var i :| 0 <= i < |plan| && Writes(plan[i], sources[i], targets[j]) && Safe(plan[i], targets[j], larger);
    }
    forall i, k | 0 <= i < k < |plan| ensures plan[i].targetPath != plan[k].targetPath {
      PathsDiffer(sources, targets, larger, plan, i, k);
    }
  }

  lemma PathsDiffer(sources: seq<Disk>, targets: seq<Disk>, larger: bool, plan: seq<Entry>, i: nat, k: nat)
    requires Plannable(sources, targets, larger) && IsPlan(sources, targets, larger, plan) && DistinctPaths(targets)
    requires i < k < |plan|
    ensures plan[i].targetPath != plan[k].targetPath
  {
    hide StableId, SourceId, Safe;
    var m := TargetOf(targets, sources[i], larger, plan[i]);
    var n := TargetOf(targets, sources[k], larger, plan[k]);
  }

  lemma TargetOf(targets: seq<Disk>, source: Disk, larger: bool, entry: Entry) returns (j: nat)
    requires Planned(targets, source, larger, entry)
    ensures j < |targets| && Writes(entry, source, targets[j])
  {
    j :| 0 <= j < |targets| && Fits(source, targets[j], larger) && Writes(entry, source, targets[j]);
  }

  /** The plan does not depend on the order in which targets were detected. */
  lemma {:induction false} OrderDoesNotMatter(sources: seq<Disk>, targets: seq<Disk>, targets': seq<Disk>, larger: bool)
    requires multiset(targets') == multiset(targets) && Plannable(sources, targets, larger)
    ensures Plannable(sources, targets', larger)
    ensures forall plan, plan' :: IsPlan(sources, targets, larger, plan) && IsPlan(sources, targets', larger, plan') ==> plan == plan'
  {
    SameMembers(targets, targets');
    SameMembers(targets', targets);
    StillDistinct(targets, targets');
    forall i | 0 <= i < |targets'| ensures StableId(targets'[i]).Some? { assert targets'[i] in targets; }
    assert |targets'| == |multiset(targets')| == |multiset(targets)| == |targets|;
    forall i | 0 <= i < |sources| ensures Takes(targets', sources[i], larger) {
      assert Takes(targets, sources[i], larger);
      var j :| 0 <= j < |targets| && Fits(sources[i], targets[j], larger);
      assert targets[j] in targets';
    }
    forall plan, plan' | IsPlan(sources, targets, larger, plan) && IsPlan(sources, targets', larger, plan')
      ensures plan == plan'
    {
      forall i | 0 <= i < |sources| ensures plan[i] == plan'[i] {
        assert Planned(targets, sources[i], larger, plan[i]) && Planned(targets', sources[i], larger, plan'[i]);
        OnePlan(targets, targets', sources[i], larger, plan[i], plan'[i]);
      }
    }
  }

  lemma SameMembers(a: seq<Disk>, b: seq<Disk>)
    requires multiset(a) == multiset(b)
    ensures forall d :: d in a ==> d in b
  {
    forall d | d in a ensures d in b { assert d in multiset(a); }
  }

  lemma StillDistinct(a: seq<Disk>, b: seq<Disk>)
    requires multiset(a) == multiset(b)
    requires forall i, j :: 0 <= i < j < |a| ==> StableId(a[i]) != StableId(a[j])
    ensures forall i, j :: 0 <= i < j < |b| ==> StableId(b[i]) != StableId(b[j])
  {
    forall i, j | 0 <= i < j < |b| ensures StableId(b[i]) != StableId(b[j]) {
      Twice(b, i, j);
      SameMembers(b, a);
      if b[i] == b[j] {
        Once(a, b[i]);
      } else {
        assert b[i] in a && b[j] in a;
      }
    }
  }

  lemma Twice(s: seq<Disk>, i: nat, j: nat)
    requires i < j < |s|
    ensures s[i] == s[j] ==> multiset(s)[s[i]] >= 2
  {
    assert s == s[..j] + s[j..];
    assert s[j..] == [s[j]] + s[j + 1..];
    assert s[i] in s[..j];
    assert multiset(s) == multiset(s[..j]) + multiset(s[j..]);
  }

  lemma {:induction false} Once(s: seq<Disk>, d: Disk)
    requires forall i, j :: 0 <= i < j < |s| ==> StableId(s[i]) != StableId(s[j])
    ensures multiset(s)[d] <= 1
  {
    if s != [] {
      var front, last := s[..|s| - 1], s[|s| - 1];
      Once(front, d);
      assert s == front + [last];
      if last == d { assert d !in front; }
    }
  }

  lemma OnePlan(targets: seq<Disk>, targets': seq<Disk>, source: Disk, larger: bool, e: Entry, e': Entry)
    requires Planned(targets, source, larger, e) && Planned(targets', source, larger, e')
    requires forall d :: d in targets' ==> d in targets
    requires forall i, j :: 0 <= i < j < |targets| ==> StableId(targets[i]) != StableId(targets[j])
    ensures e == e'
  {
    var j := TargetOf(targets, source, larger, e);
    var k := TargetOf(targets', source, larger, e');
    assert targets'[k] in targets;
  }
}
