/**
 * The three sort-and-scan overlap checks over partition tables, and the expansion of the last root partition
 * (pyfog/image_manifest.py, scripts/run_image_task.py).
 */
module Layout {
  datatype Role = Esp | Boot | Root | Swap

  /** Both validators refuse a partition of no sectors before looking at overlaps. */
  type Count = n: nat | 0 < n witness 1

  datatype Partition = Partition(number: nat, role: Role, start: nat, size: Count, filesystem: string) {
    function End(): nat { start + size - 1 }
  }

  /** Sectors `start` to `end`, both included. */
  datatype Span = Span(start: nat, end: nat)

  function SpanOf(p: Partition): Span { Span(p.start, p.End()) }

  function Spans(parts: seq<Partition>): (s: seq<Span>)
    ensures |s| == |parts| && forall i :: 0 <= i < |parts| ==> s[i] == SpanOf(parts[i])
  {
    seq(|parts|, i requires 0 <= i < |parts| => SpanOf(parts[i]))
  }

  /* ----- what the checks are for ----- */

  predicate Apart(a: Span, b: Span) { a.end < b.start || b.end < a.start }

  /** No sector belongs to two partitions. */
  predicate Disjoint(spans: seq<Span>) {
    forall i, j :: 0 <= i < j < |spans| ==> Apart(spans[i], spans[j])
  }

  predicate Within(spans: seq<Span>, first: int, last: int) {
    forall i :: 0 <= i < |spans| ==> first <= spans[i].start && spans[i].end <= last
  }

  /** How many spans cover a sector. */
  function Cover(spans: seq<Span>, x: nat): nat {
    if spans == [] then 0
    else
      var last := spans[|spans| - 1];
      Cover(spans[..|spans| - 1], x) + if last.start <= x <= last.end then 1 else 0
  }

  predicate Proper(spans: seq<Span>) { forall i :: 0 <= i < |spans| ==> spans[i].start <= spans[i].end }

  lemma {:induction false} CoverAppend(a: seq<Span>, b: seq<Span>, x: nat)
    ensures Cover(a + b, x) == Cover(a, x) + Cover(b, x)
  {
    if b == [] {
      assert a + b == a;
    } else {
      assert (a + b)[..|a + b| - 1] == a + b[..|b| - 1];
      CoverAppend(a, b[..|b| - 1], x);
    }
  }

  lemma {:induction false} CoveredBy(spans: seq<Span>, x: nat) returns (i: nat)
    requires 0 < Cover(spans, x)
    ensures i < |spans| && spans[i].start <= x <= spans[i].end
  {
    var last := spans[|spans| - 1];
    if last.start <= x <= last.end {
      i := |spans| - 1;
    } else {
      i := CoveredBy(spans[..|spans| - 1], x);
    }
  }

  lemma {:induction false} CoverCounts(spans: seq<Span>, i: nat, x: nat)
    requires i < |spans| && spans[i].start <= x <= spans[i].end
    ensures 0 < Cover(spans, x)
  {
    if i < |spans| - 1 { CoverCounts(spans[..|spans| - 1], i, x); }
  }

  ghost predicate CoveredOnce(spans: seq<Span>) { forall x: nat :: Cover(spans, x) <= 1 }

  lemma DisjointSnoc(front: seq<Span>, last: Span)
    ensures Disjoint(front + [last]) <==> Disjoint(front) && forall i :: 0 <= i < |front| ==> Apart(front[i], last)
  {
    var all := front + [last];
    assert forall i :: 0 <= i < |front| ==> all[i] == front[i];
    if Disjoint(all) {
      assert forall i :: 0 <= i < |front| ==> Apart(all[i], all[|front|]);
    }
  }

  lemma CoverSnoc(front: seq<Span>, last: Span, x: nat)
    ensures Cover(front + [last], x) == Cover(front, x) + if last.start <= x <= last.end then 1 else 0
  {
    assert (front + [last])[..|front|] == front;
  }

  /** Disjoint means that every sector is covered at most once; so the order of the list is irrelevant. */
  lemma {:induction false} DisjointIsCover(spans: seq<Span>)
    requires Proper(spans)
    ensures Disjoint(spans) <==> CoveredOnce(spans)
  {
    if spans != [] {
      var front, last := spans[..|spans| - 1], spans[|spans| - 1];
      assert spans == front + [last];
      DisjointIsCover(front);
      DisjointSnoc(front, last);
      forall x: nat ensures Cover(spans, x) == Cover(front, x) + if last.start <= x <= last.end then 1 else 0 {
        CoverSnoc(front, last, x);
      }
      if Disjoint(spans) {
        forall x: nat ensures Cover(spans, x) <= 1 {
          if 0 < Cover(front, x) { var i := CoveredBy(front, x); }
        }
      } else if Disjoint(front) {
        var i :| 0 <= i < |front| && !Apart(front[i], last);
        var x := if front[i].start <= last.start then last.start else front[i].start;
        CoverCounts(front, i, x);
        assert Cover(spans, x) > 1;
      } else {
        var x: nat :| Cover(front, x) > 1;
        assert Cover(spans, x) > 1;
      }
    }
  }

  /** Two lists that cover every sector equally often are disjoint or not together. */
  lemma SameCover(a: seq<Span>, b: seq<Span>)
    requires Proper(a) && Proper(b) && forall x: nat :: Cover(a, x) == Cover(b, x)
    ensures Disjoint(a) <==> Disjoint(b)
  {
    hide Cover, Disjoint;
    DisjointIsCover(a);
    DisjointIsCover(b);
  }

  /* ----- sorting and scanning ----- */

  predicate Sorted(spans: seq<Span>) { forall i, j :: 0 <= i < j < |spans| ==> spans[i].start <= spans[j].start }

  predicate SameSpans(a: seq<Span>, b: seq<Span>) {
    |a| == |b| && (forall s :: s in a ==> s in b) && forall s :: s in b ==> s in a
  }

  lemma SortedInsert(order: seq<Span>, p: nat, s: Span)
    requires Sorted(order) && p <= |order|
    requires forall k :: p <= k < |order| ==> s.start < order[k].start
    requires 0 < p ==> order[p - 1].start <= s.start
    ensures Sorted(order[..p] + [s] + order[p..])
  {
    var order' := order[..p] + [s] + order[p..];
    assert forall k :: 0 <= k < p ==> order[k].start <= s.start;
    forall i, j | 0 <= i < j < |order'| ensures order'[i].start <= order'[j].start {
      assert order'[i] == if i < p then order[i] else if i == p then s else order[i - 1];
      assert order'[j] == if j < p then order[j] else if j == p then s else order[j - 1];
    }
  }

  lemma InsertedMembers(order: seq<Span>, p: nat, s: Span)
    requires p <= |order|
    ensures forall t :: t in order[..p] + [s] + order[p..] <==> t in order || t == s
  {
    assert order == order[..p] + order[p..];
  }

  lemma InsertedCover(order: seq<Span>, p: nat, s: Span, x: nat)
    requires p <= |order|
    ensures Cover(order[..p] + [s] + order[p..], x) == Cover(order + [s], x)
  {
    hide Cover;
    assert order == order[..p] + order[p..];
    CoverAppend(order[..p] + [s], order[p..], x);
    CoverAppend(order[..p], [s], x);
    CoverAppend(order[..p], order[p..], x);
    CoverAppend(order, [s], x);
  }

  /** `sorted`, on spans. */
  method SortSpans(spans: seq<Span>) returns (order: seq<Span>)
    ensures Sorted(order) && SameSpans(order, spans)
    ensures forall x: nat :: Cover(order, x) == Cover(spans, x)
  {
    order := [];
    for i := 0 to |spans|
      invariant |order| == i && Sorted(order)
      invariant forall s :: s in order <==> s in spans[..i]
      invariant forall x: nat :: Cover(order, x) == Cover(spans[..i], x)
    {
      var s := spans[i];
      var p := |order|;
      while p > 0 && s.start < order[p - 1].start
        invariant 0 <= p <= |order|
        invariant forall k :: p <= k < |order| ==> s.start < order[k].start
      {
        p := p - 1;
      }
      SortedInsert(order, p, s);
      InsertedMembers(order, p, s);
      assert spans[..i + 1] == spans[..i] + [s];
      forall x: nat ensures Cover(order[..p] + [s] + order[p..], x) == Cover(spans[..i + 1], x) {
        InsertedCover(order, p, s, x);
        CoverAppend(order, [s], x);
        CoverAppend(spans[..i], [s], x);
      }
      order := order[..p] + [s] + order[p..];
    }
    assert spans[..|spans|] == spans;
  }

  lemma SameWithin(a: seq<Span>, b: seq<Span>, first: int, last: int)
    requires SameSpans(a, b)
    ensures Within(a, first, last) <==> Within(b, first, last)
    ensures Proper(a) <==> Proper(b)
  {
    assert forall i :: 0 <= i < |a| ==> a[i] in b;
    assert forall i :: 0 <= i < |b| ==> b[i] in a;
  }

  /** `validate_geometry` on the server: one pass over the sorted partitions. */
  method ServerScan(parts: seq<Partition>, first: nat, last: int) returns (ok: bool)
    ensures ok <==> Within(Spans(parts), first, last) && Disjoint(Spans(parts))
  {
    var spans := Spans(parts);
    var ordered := SortSpans(spans);
    SameWithin(ordered, spans, first, last);
    SameCover(ordered, spans);
    var previousEnd: int := first - 1;
    for i := 0 to |ordered|
      invariant previousEnd == if i == 0 then first - 1 else ordered[i - 1].end
      invariant forall k :: 0 <= k < i ==> first <= ordered[k].start && ordered[k].end <= last
      invariant forall j, k :: 0 <= j < k < i ==> ordered[j].end < ordered[k].start
    {
      var s := ordered[i];
      if s.start < first || s.end > last { return false; }
      if s.start <= previousEnd {
        assert !Apart(ordered[i - 1], ordered[i]);
        return false;
      }
      previousEnd := s.end;
    }
    return true;
  }

  /** The restore agent: range checks while collecting, then a pass over the sorted spans. */
  method AgentScan(parts: seq<Partition>, first: nat, last: int) returns (ok: bool)
    ensures ok <==> Within(Spans(parts), first, last) && Disjoint(Spans(parts))
  {
    var spans: seq<Span> := [];
    for i := 0 to |parts|
      invariant spans == Spans(parts)[..i]
      invariant forall k :: 0 <= k < i ==> first <= parts[k].start && parts[k].End() <= last
    {
      var end := parts[i].End();
      if parts[i].start < first || end > last {
        assert Spans(parts)[i] == SpanOf(parts[i]);
        return false;
      }
      spans := spans + [Span(parts[i].start, end)];
    }
    assert spans == Spans(parts);
    var ordered := SortSpans(spans);
    SameWithin(ordered, spans, first, last);
    SameCover(ordered, spans);
    var previousEnd: int := first - 1;
    for i := 0 to |ordered|
      invariant previousEnd == if i == 0 then first - 1 else ordered[i - 1].end
      invariant forall j, k :: 0 <= j < k < i ==> ordered[j].end < ordered[k].start
    {
      if ordered[i].start <= previousEnd {
        assert !Apart(ordered[i - 1], ordered[i]);
        return false;
      }
      previousEnd := ordered[i].end;
    }
    return true;
  }

  /** The capture agent on an MBR disk: only an upper bound, then every neighbouring pair of the sorted spans. */
  method MbrScan(parts: seq<Partition>, sectors: nat) returns (ok: bool)
    ensures ok <==> Within(Spans(parts), 0, sectors - 1) && Disjoint(Spans(parts))
  {
    var spans := Spans(parts);
    if exists i :: 0 <= i < |parts| && parts[i].start + parts[i].size > sectors {
      var i :| 0 <= i < |parts| && parts[i].start + parts[i].size > sectors;
      assert spans[i].end > sectors - 1;
      return false;
    }
    var ordered := SortSpans(spans);
    SameWithin(ordered, spans, 0, sectors - 1);
    SameCover(ordered, spans);
    var i := 1;
    while i < |ordered|
      invariant 1 <= i && (ordered != [] ==> i <= |ordered|)
      invariant forall j, k :: 0 <= j < k < i && k < |ordered| ==> ordered[j].end < ordered[k].start
    {
      if ordered[i].start <= ordered[i - 1].end {
        assert !Apart(ordered[i - 1], ordered[i]);
        return false;
      }
      i := i + 1;
    }
    return true;
  }

  /* ----- what the checks accept together ----- */

  const FIRST_SAFE_MBR_SECTOR: nat := 2048

  /** An accepted layout, as a set of sectors: every sector of the disk is in at most one partition, and in range. */
  predicate ValidLayout(parts: seq<Partition>, first: int, last: int) {
    Within(Spans(parts), first, last) && Disjoint(Spans(parts))
  }

  /** The capture agent accepts an MBR table the server refuses exactly when a partition starts too early. */
  lemma MbrGap(parts: seq<Partition>, sectors: nat)
    ensures ValidLayout(parts, FIRST_SAFE_MBR_SECTOR, sectors - 1)
            <==> ValidLayout(parts, 0, sectors - 1) && forall i :: 0 <= i < |parts| ==> FIRST_SAFE_MBR_SECTOR <= parts[i].start
  {
    assert forall i :: 0 <= i < |parts| ==> Spans(parts)[i].start == parts[i].start;
  }

  /** Both scans on one table: what is captured is refused afterwards exactly when a partition starts too early. */
  method CompareMbrScans(parts: seq<Partition>, sectors: nat) returns (captured: bool, published: bool)
    ensures captured <==> ValidLayout(parts, 0, sectors - 1)
    ensures published <==> captured && forall i :: 0 <= i < |parts| ==> FIRST_SAFE_MBR_SECTOR <= parts[i].start
  {
    captured := MbrScan(parts, sectors);
    published := ServerScan(parts, FIRST_SAFE_MBR_SECTOR, sectors - 1);
    MbrGap(parts, sectors);
  }

  /* ----- expanding the last root partition ----- */

  datatype Expansion = NotNeeded | Refused | Grow(root: nat)

  /** The root that may grow: the first root partition, ext4, last on a GPT disk without swap. */
  predicate Expandable(gpt: bool, parts: seq<Partition>, i: nat) {
    && gpt && i < |parts|
    && parts[i].role == Root && parts[i].filesystem == "ext4"
    && (forall k :: 0 <= k < i ==> parts[k].role != Root)
    && (forall k :: 0 <= k < |parts| ==> parts[k].role != Swap)
    && forall k :: 0 <= k < |parts| && k != i ==> parts[k].start < parts[i].start || (parts[k].start == parts[i].start && k < i)
  }

  /** `validate_target_expansion`. */
  method ValidateTargetExpansion(targetSize: nat, sourceSize: nat, gpt: bool, parts: seq<Partition>) returns (r: Expansion)
    ensures r == NotNeeded <==> targetSize <= sourceSize
    ensures r.Grow? <==> sourceSize < targetSize && exists i: nat :: Expandable(gpt, parts, i)
    ensures r.Grow? ==> Expandable(gpt, parts, r.root)
    ensures r.Grow? ==> && gpt && parts[r.root].role == Root && parts[r.root].filesystem == "ext4"
                        && forall k :: 0 <= k < |parts| ==> parts[k].role != Swap && parts[k].start <= parts[r.root].start
  {
    if targetSize <= sourceSize { return NotNeeded; }
    if !gpt { return Refused; }
    var root: nat := 0;
    while root < |parts| && parts[root].role != Root
      invariant root <= |parts|
      invariant forall k :: 0 <= k < root ==> parts[k].role != Root
    {
      root := root + 1;
    }
    if root == |parts| || parts[root].filesystem != "ext4" {
      OnlyFirstRoot(gpt, parts, root);
      return Refused;
    }
    var last := 0;
    for k := 0 to |parts|
      invariant last < |parts|
      invariant forall n :: 0 <= n < k && n != last ==>
                              parts[n].start < parts[last].start || (parts[n].start == parts[last].start && n < last)
      invariant k == 0 ==> last == 0
      invariant 0 < k ==> last < k
    {
      if parts[last].start <= parts[k].start { last := k; }
    }
    OnlyFirstRoot(gpt, parts, root);
    if last != root { return Refused; }
    if exists k :: 0 <= k < |parts| && parts[k].role == Swap { return Refused; }
    assert Expandable(gpt, parts, root as nat);
    return Grow(root);
  }

  lemma OnlyFirstRoot(gpt: bool, parts: seq<Partition>, root: nat)
    requires root <= |parts| && forall k :: 0 <= k < root ==> parts[k].role != Root
    requires root < |parts| ==> parts[root].role == Root
    ensures forall i: nat :: Expandable(gpt, parts, i) ==> i == root
  {
  }

  /** Delete the root partition and create it again, from the same sector to the new last usable one. */
  function Expanded(parts: seq<Partition>, root: nat, newLast: nat): seq<Partition>
    requires root < |parts| && parts[root].start <= newLast
  {
    parts[root := parts[root].(size := newLast - parts[root].start + 1)]
  }

  /**
   * When the target's last usable sector is not before the source's, a valid layout stays valid on the larger disk:
   * no partition but the root changes, and the root keeps every sector it had.
   */
  lemma {:induction false} ExpansionKeepsLayout(gpt: bool, parts: seq<Partition>, root: nat, first: nat, last: nat, newLast: nat)
    requires Expandable(gpt, parts, root) && ValidLayout(parts, first, last) && last <= newLast
    ensures parts[root].start <= newLast
    ensures var parts' := Expanded(parts, root, newLast);
            && ValidLayout(parts', first, newLast)
            && (forall k :: 0 <= k < |parts| && k != root ==> parts'[k] == parts[k])
            && parts'[root].number == parts[root].number && parts'[root].start == parts[root].start
            && parts[root].End() <= parts'[root].End() == newLast
  {
    assert Spans(parts)[root] == SpanOf(parts[root]);
    var parts' := Expanded(parts, root, newLast);
    var s, s' := Spans(parts), Spans(parts');
    forall k | 0 <= k < |parts| && k != root ensures s'[k] == s[k] && s[k].end < s'[root].start {
      assert Apart(s[if k < root then k else root], s[if k < root then root else k]);
      assert s[k] == SpanOf(parts[k]);
    }
    assert s'[root] == Span(parts[root].start, newLast);
    forall i, j | 0 <= i < j < |s'| ensures Apart(s'[i], s'[j]) {
      if i != root && j != root { assert Apart(s[i], s[j]); }
    }
  }
}
