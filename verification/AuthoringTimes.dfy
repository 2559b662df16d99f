/** What the derived times of a plan are, which plans with times are accepted, and which issues a plan has
    (internal/investigator/authoring.go, draft.go). */
module AuthoringTimes {
  import opened Text
  import opened Wrappers
  import opened AuthoringRanges

  // ----- derived times

  /** A piece of evidence starts at the moment; the end of the video counts when there is none. */
  ghost predicate IsStart(catalog: map<string, Timing>, ids: seq<string>, n: nat, duration: int, m: int)
    requires n <= |ids|
  {
    m == duration || exists k :: 0 <= k < n && StartsAt(catalog, ids[k], m)
  }

  predicate StartsAt(catalog: map<string, Timing>, id: string, m: int) {
    id in catalog && ((catalog[id].range.Some? && catalog[id].range.value.0 == m) || catalog[id].timeMs == Some(m))
  }

  /** A piece of evidence ends at the moment; a picture lasts one millisecond. */
  ghost predicate IsEnd(catalog: map<string, Timing>, ids: seq<string>, n: nat, duration: int, m: int)
    requires n <= |ids|
  {
    m == 0 || exists k :: 0 <= k < n && EndsAt(catalog, ids[k], duration, m)
  }

  predicate EndsAt(catalog: map<string, Timing>, id: string, duration: int, m: int) {
    && id in catalog
    && ((catalog[id].range.Some? && catalog[id].range.value.1 == m)
        || (catalog[id].timeMs.Some? && m == if catalog[id].timeMs.value < duration then catalog[id].timeMs.value + 1 else duration))
  }

  ghost predicate IsEarliest(catalog: map<string, Timing>, ids: seq<string>, duration: int, m: int) {
    IsStart(catalog, ids, |ids|, duration, m) && forall m' | IsStart(catalog, ids, |ids|, duration, m') :: m <= m'
  }

  ghost predicate IsLatest(catalog: map<string, Timing>, ids: seq<string>, duration: int, m: int) {
    IsEnd(catalog, ids, |ids|, duration, m) && forall m' | IsEnd(catalog, ids, |ids|, duration, m') :: m' <= m
  }

  lemma {:induction false} SpanIsExact(catalog: map<string, Timing>, ids: seq<string>, duration: int, n: nat)
    requires n <= |ids|
    ensures var s := Span(catalog, ids, duration, n); IsStart(catalog, ids, n, duration, s.0) && forall m | IsStart(catalog, ids, n, duration, m) :: s.0 <= m
    ensures var s := Span(catalog, ids, duration, n); IsEnd(catalog, ids, n, duration, s.1) && forall m | IsEnd(catalog, ids, n, duration, m) :: m <= s.1
  {
    if n > 0 {
      SpanIsExact(catalog, ids, duration, n - 1);
      var s, front := Span(catalog, ids, duration, n), Span(catalog, ids, duration, n - 1);
      forall m ensures IsStart(catalog, ids, n, duration, m) <==> IsStart(catalog, ids, n - 1, duration, m) || StartsAt(catalog, ids[n - 1], m) {
      }
      forall m ensures IsEnd(catalog, ids, n, duration, m) <==> IsEnd(catalog, ids, n - 1, duration, m) || EndsAt(catalog, ids[n - 1], duration, m) {
      }
      assert IsStart(catalog, ids, n - 1, duration, s.0) || StartsAt(catalog, ids[n - 1], s.0);
      assert IsEnd(catalog, ids, n - 1, duration, s.1) || EndsAt(catalog, ids[n - 1], duration, s.1);
    }
  }

  lemma TimedExactly(p: Plan, catalog: map<string, Timing>, duration: int)
    ensures var t := Timed(p, catalog, duration); IsEarliest(catalog, p.evidenceIds, duration, t.startMs) && IsLatest(catalog, p.evidenceIds, duration, t.endMs)
  {
    hide Span, IsStart, IsEnd;
    SpanIsExact(catalog, p.evidenceIds, duration, |p.evidenceIds|);
  }

  /** A section before a gap runs on to the start of the next one. */
  function Reaching(plan: seq<Plan>, n: nat, i: nat): Plan
    requires i < |plan|
  {
    if i + 1 < n && i + 1 < |plan| && plan[i].endMs < plan[i + 1].startMs then plan[i].(endMs := plan[i + 1].startMs) else plan[i]
  }

  lemma {:induction false} FilledExactly(plan: seq<Plan>, n: nat, i: nat)
    requires n <= |plan| && i < |plan|
    ensures Filled(plan, n)[i] == Reaching(plan, n, i)
  {
    if n > 1 {
      FilledExactly(plan, n - 1, i);
      FilledExactly(plan, n - 1, n - 1);
      FilledExactly(plan, n - 1, n - 2);
    }
  }

  /** MAIN RESULT: each section runs from the earliest to the latest of its evidence, on to the start of
      the next one if there is a gap; the first starts with the video and the last ends with it. */
  lemma DerivedTimes(plan: seq<Plan>, catalog: map<string, Timing>, duration: int, i: nat)
    requires i < |plan|
    ensures var d := Derive(plan, catalog, duration); |d| == |plan| && d[i] == plan[i].(startMs := d[i].startMs, endMs := d[i].endMs)
    ensures var d := Derive(plan, catalog, duration); if i == 0 then d[i].startMs == 0 else IsEarliest(catalog, plan[i].evidenceIds, duration, d[i].startMs)
    ensures var d := Derive(plan, catalog, duration); if i == |plan| - 1 then d[i].endMs == duration else exists m :: IsLatest(catalog, plan[i].evidenceIds, duration, m) && d[i].endMs == Max(m, d[i + 1].startMs)
  {
    hide Filled, Span, IsEarliest, IsLatest;
    var timed := AllTimed(plan, catalog, duration);
    var anchored := Anchored(timed, duration);
    FilledExactly(anchored, |anchored|, i);
    TimedExactly(plan[i], catalog, duration);
    assert timed[i] == Timed(plan[i], catalog, duration);
    if i + 1 < |plan| {
      FilledExactly(anchored, |anchored|, i + 1);
      assert Derive(plan, catalog, duration)[i].endMs == Max(timed[i].endMs, anchored[i + 1].startMs);
    }
  }

  // ----- plans with times

  /** The farthest end of the first `n` sections, from the start of the video. */
  function Farthest(plan: seq<Plan>, n: nat): (end: int)
    requires n <= |plan|
    ensures 0 <= end && (forall k | 0 <= k < n :: plan[k].endMs <= end) && (end == 0 || exists k :: 0 <= k < n && plan[k].endMs == end)
  {
    if n == 0 then 0
    else
      var front := Farthest(plan, n - 1);
      if front < plan[n - 1].endMs then plan[n - 1].endMs else front
  }

  /** The section starts where the ones before end; with overlap, not before the last one and not after their end. */
  predicate IsConnected(plan: seq<Plan>, overlap: bool, i: nat)
    requires i < |plan|
  {
    if overlap then (if i == 0 then 0 else plan[i - 1].startMs) <= plan[i].startMs <= Farthest(plan, i)
    else plan[i].startMs == Farthest(plan, i)
  }

  ghost predicate IsGoodStart(plan: seq<Plan>, duration: int, overlap: bool, i: nat)
    requires i < |plan|
  {
    && IdFits(plan[i].id) && TrimSpace(plan[i].title) != "" && InVideo(plan[i], duration) && IsConnected(plan, overlap, i)
    && forall k | 0 <= k < i :: plan[k].id != plan[i].id
  }

  /** What a plan with times must be. */
  ghost predicate IsSequence(plan: seq<Plan>, duration: int, overlap: bool) {
    && 1 <= |plan| <= MAX_SECTIONS && (forall i | 0 <= i < |plan| :: IsGoodStart(plan, duration, overlap, i))
    && exists i :: 0 <= i < |plan| && plan[i].endMs == duration
  }

  lemma {:induction false} AcceptFirstExactly(plan: seq<Plan>, duration: int, overlap: bool, n: nat)
    requires n <= |plan|
    ensures AcceptFirst(plan, duration, overlap, n).Some? <==> forall i | 0 <= i < n :: IsGoodStart(plan, duration, overlap, i)
    ensures AcceptFirst(plan, duration, overlap, n).Some? ==> AcceptFirst(plan, duration, overlap, n).value == Farthest(plan, n)
  {
    hide TrimSpace, IdFits, Ids;
    if n > 0 {
      AcceptFirstExactly(plan, duration, overlap, n - 1);
      IdsAre(plan, n - 1, plan[n - 1].id);
      assert (forall i | 0 <= i < n :: IsGoodStart(plan, duration, overlap, i))
        <==> (forall i | 0 <= i < n - 1 :: IsGoodStart(plan, duration, overlap, i)) && IsGoodStart(plan, duration, overlap, n - 1);
    }
  }

  /** MAIN RESULT: a plan with times is accepted exactly when its sections are identified, titled, in the
      video, connected in order, and reach its end. */
  lemma AcceptsExactly(plan: seq<Plan>, duration: int, overlap: bool)
    ensures Accepts(plan, duration, overlap) <==> IsSequence(plan, duration, overlap)
  {
    hide TrimSpace, IdFits, IsConnected, AcceptFirst;
    AcceptFirstExactly(plan, duration, overlap, |plan|);
    if 1 <= |plan| && forall i | 0 <= i < |plan| :: IsGoodStart(plan, duration, overlap, i) {
      forall i | 0 <= i < |plan| ensures 0 < plan[i].endMs <= duration {
        assert IsGoodStart(plan, duration, overlap, i);
      }
    }
  }

  // ----- the issues of a plan

  lemma {:induction false} OwnIssuesExactly(plan: seq<Plan>, duration: int, n: nat, issue: Issue)
    requires n <= |plan|
    ensures issue in OwnIssues(plan, duration, n) <==> issue.section < n && IsOwnIssue(plan, duration, issue)
  {
    hide TrimSpace, IdFits, Ids;
    if n > 0 {
      OwnIssuesExactly(plan, duration, n - 1, issue);
      IdsAre(plan, n - 1, plan[n - 1].id);
    }
  }

  ghost predicate IsOwnIssue(plan: seq<Plan>, duration: int, issue: Issue) {
    && issue.section < |plan|
    && var i := issue.section;
    match issue.code
    case InvalidId => !IdFits(plan[i].id) || exists k :: 0 <= k < i && plan[k].id == plan[i].id
    case MissingTitle => TrimSpace(plan[i].title) == ""
    case InvalidRange => !InVideo(plan[i], duration)
    case CoverageGap => false
  }

  /** The section is in the video, but the moment before it is in none, and it is the first one that starts there. */
  ghost predicate IsAfterGap(plan: seq<Plan>, duration: int, i: nat) {
    && i < |plan| && InVideo(plan[i], duration) && 0 < plan[i].startMs
    && (forall k | 0 <= k < |plan| && InVideo(plan[k], duration) :: !(plan[k].startMs <= plan[i].startMs - 1 < plan[k].endMs))
    && forall k | 0 <= k < i && InVideo(plan[k], duration) :: plan[k].startMs != plan[i].startMs
  }

  /** The section starts last of those in the video, and none of them reaches its end. */
  ghost predicate IsShortOfEnd(plan: seq<Plan>, duration: int, i: nat) {
    && i < |plan| && InVideo(plan[i], duration)
    && (forall k | 0 <= k < |plan| && InVideo(plan[k], duration) :: plan[k].endMs < duration)
    && forall k | 0 <= k < |plan| && InVideo(plan[k], duration) :: plan[k].startMs < plan[i].startMs || (plan[k].startMs == plan[i].startMs && k <= i)
  }

  predicate Before(plan: seq<Plan>, i: nat, j: nat)
    requires i < |plan| && j < |plan|
  {
    plan[i].startMs < plan[j].startMs || (plan[i].startMs == plan[j].startMs && i < j)
  }

  /** Sorted by start, and by position where starts are equal, nothing twice. */
  ghost predicate IsStable(plan: seq<Plan>, order: seq<nat>) {
    Indices(plan, order) && forall i, j | 0 <= i < j < |order| :: Before(plan, order[i], order[j])
  }

  lemma {:induction false} InsertIsStable(plan: seq<Plan>, order: seq<nat>, i: nat)
    requires IsStable(plan, order) && i < |plan| && forall j | 0 <= j < |order| :: order[j] < i
    ensures IsStable(plan, Insert(plan, order, i))
  {
    if order != [] {
      var front, last := order[..|order| - 1], order[|order| - 1];
      if plan[last].startMs > plan[i].startMs {
        InsertIsStable(plan, front, i);
        var made := Insert(plan, front, i);
        forall j | 0 <= j < |made| ensures Before(plan, made[j], last) {
          assert made[j] in made;
          if made[j] != i {
            var k :| 0 <= k < |front| && front[k] == made[j];
            assert Before(plan, order[k], order[|order| - 1]);
          }
        }
      } else {
        forall j | 0 <= j < |order| ensures Before(plan, order[j], i) {
          assert j < |order| - 1 ==> Before(plan, order[j], last);
        }
      }
    }
  }

  lemma {:induction false} SortIsStable(plan: seq<Plan>, duration: int, n: nat)
    requires n <= |plan|
    ensures IsStable(plan, Sort(plan, Ranged(plan, duration, n))) && forall k | k in Sort(plan, Ranged(plan, duration, n)) :: k < n
  {
    hide Insert, IsStable;
    if n > 0 {
      SortIsStable(plan, duration, n - 1);
      var front := Ranged(plan, duration, n - 1);
      if InVideo(plan[n - 1], duration) {
        assert (front + [n - 1])[..|front|] == front;
        var sorted := Sort(plan, front);
        forall j | 0 <= j < |sorted| ensures sorted[j] < n - 1 {
          assert sorted[j] in sorted;
        }
        InsertIsStable(plan, sorted, n - 1);
      }
    } else {
      assert IsStable(plan, []) by { NothingIsStable(plan); }
    }
  }

  lemma NothingIsStable(plan: seq<Plan>)
    ensures IsStable(plan, [])
  {
  }

  lemma {:induction false} GapsExactly(plan: seq<Plan>, order: seq<nat>, n: nat, issue: Issue)
    requires Indices(plan, order) && n <= |order|
    ensures issue in Gaps(plan, order, n) <==> issue.code == CoverageGap && exists k: nat :: k < n && order[k] == issue.section && plan[order[k]].startMs > Reach(plan, order, k)
  {
    if n > 0 {
      GapsExactly(plan, order, n - 1, issue);
    }
  }

  /** The order lists exactly the sections in the video. */
  ghost predicate Lists(plan: seq<Plan>, duration: int, order: seq<nat>) {
    IsStable(plan, order) && forall i: nat :: i in order <==> i < |plan| && InVideo(plan[i], duration)
  }

  lemma ListedAt(plan: seq<Plan>, duration: int, order: seq<nat>, i: nat) returns (k: nat)
    requires Lists(plan, duration, order) && i < |plan| && InVideo(plan[i], duration)
    ensures k < |order| && order[k] == i
  {
    hide IsStable, InVideo;
    assert i in order;
    k :| k < |order| && order[k] == i;
  }

  lemma Listed(plan: seq<Plan>, duration: int, order: seq<nat>, k: nat)
    requires Lists(plan, duration, order) && k < |order|
    ensures order[k] < |plan| && InVideo(plan[order[k]], duration)
  {
    hide IsStable, InVideo;
    assert order[k] in order;
  }

  lemma OrderedBefore(plan: seq<Plan>, duration: int, order: seq<nat>, j: nat, k: nat)
    requires Lists(plan, duration, order) && j < |order| && k < |order|
    ensures order[j] < |plan| && order[k] < |plan| && (Before(plan, order[j], order[k]) <==> j < k)
  {
    hide InVideo;
  }

  /** Nothing before reaches the section: then the moment before it is in no section. */
  lemma GapIsSeen(plan: seq<Plan>, duration: int, order: seq<nat>, k: nat)
    requires Lists(plan, duration, order) && k < |order| && Indices(plan, order) && plan[order[k]].startMs > Reach(plan, order, k)
    ensures IsAfterGap(plan, duration, order[k])
  {
    hide Lists, Reach;
    var i := order[k];
    Listed(plan, duration, order, k);
    ReachIsEnd(plan, order, k);
    forall m | 0 <= m < |plan| && InVideo(plan[m], duration)
      ensures !(plan[m].startMs <= plan[i].startMs - 1 < plan[m].endMs) && (m < i ==> plan[m].startMs != plan[i].startMs) {
      var j := ListedAt(plan, duration, order, m);
      OrderedBefore(plan, duration, order, j, k);
    }
  }

  /** And the other way round. */
  lemma GapIsReported(plan: seq<Plan>, duration: int, order: seq<nat>, k: nat)
    requires Lists(plan, duration, order) && k < |order| && Indices(plan, order) && IsAfterGap(plan, duration, order[k])
    ensures plan[order[k]].startMs > Reach(plan, order, k)
  {
    hide Lists, Reach;
    var i, reach := order[k], Reach(plan, order, k);
    ReachIsEnd(plan, order, k);
    if reach > 0 {
      var j :| 0 <= j < k && plan[order[j]].endMs == reach;
      Listed(plan, duration, order, j);
      OrderedBefore(plan, duration, order, j, k);
    }
  }

  lemma LastMeans(plan: seq<Plan>, duration: int, order: seq<nat>, i: nat)
    requires Lists(plan, duration, order) && Indices(plan, order)
    ensures Issue(i, CoverageGap) in EndIssues(plan, order, duration) <==> IsShortOfEnd(plan, duration, i)
  {
    hide Lists, Reach;
    ReachIsEnd(plan, order, |order|);
    if Issue(i, CoverageGap) in EndIssues(plan, order, duration) {
      Listed(plan, duration, order, |order| - 1);
      if Reach(plan, order, |order|) > 0 {
        var j :| 0 <= j < |order| && plan[order[j]].endMs == Reach(plan, order, |order|);
        Listed(plan, duration, order, j);
      }
      forall k | 0 <= k < |plan| && InVideo(plan[k], duration)
        ensures plan[k].endMs < duration && (plan[k].startMs < plan[i].startMs || (plan[k].startMs == plan[i].startMs && k <= i)) {
        var j := ListedAt(plan, duration, order, k);
        OrderedBefore(plan, duration, order, j, |order| - 1);
      }
    }
    if IsShortOfEnd(plan, duration, i) {
      var j := ListedAt(plan, duration, order, i);
      Listed(plan, duration, order, |order| - 1);
      OrderedBefore(plan, duration, order, j, |order| - 1);
      if Reach(plan, order, |order|) > 0 {
        var m :| 0 <= m < |order| && plan[order[m]].endMs == Reach(plan, order, |order|);
        Listed(plan, duration, order, m);
      }
    }
  }

  /** MAIN RESULT: the issues of a plan are exactly these. */
  lemma IssuesExactly(plan: seq<Plan>, duration: int, issue: Issue)
    requires 1 <= |plan| <= MAX_SECTIONS
    ensures Check(plan, duration).Issues? && (issue in Check(plan, duration).issues <==>
      IsOwnIssue(plan, duration, issue) || (issue.code == CoverageGap && (IsAfterGap(plan, duration, issue.section) || IsShortOfEnd(plan, duration, issue.section))))
  {
    hide OwnIssues, Ranged, Sort, Gaps, EndIssues, IsOwnIssue, IsAfterGap, IsShortOfEnd, IsStable, Reach, InVideo;
    var order := Sort(plan, Ranged(plan, duration, |plan|));
    OwnIssuesExactly(plan, duration, |plan|, issue);
    if IsOwnIssue(plan, duration, issue) {
      OwnIsInPlan(plan, duration, issue);
    }
    RangedAre(plan, duration, |plan|);
    SortIsStable(plan, duration, |plan|);
    assert Lists(plan, duration, order);
    GapsExactly(plan, order, |order|, issue);
    forall k: nat | k < |order| ensures plan[order[k]].startMs > Reach(plan, order, k) <==> IsAfterGap(plan, duration, order[k]) {
      if plan[order[k]].startMs > Reach(plan, order, k) {
        GapIsSeen(plan, duration, order, k);
      }
      if IsAfterGap(plan, duration, order[k]) {
        GapIsReported(plan, duration, order, k);
      }
    }
    LastMeans(plan, duration, order, issue.section);
    if IsAfterGap(plan, duration, issue.section) {
      GapIsInVideo(plan, duration, issue.section);
      var k := ListedAt(plan, duration, order, issue.section);
    }
    EndIssuesAreGaps(plan, order, duration, issue);
  }

  lemma GapIsInVideo(plan: seq<Plan>, duration: int, i: nat)
    requires IsAfterGap(plan, duration, i)
    ensures i < |plan| && InVideo(plan[i], duration)
  {
  }

  lemma OwnIsInPlan(plan: seq<Plan>, duration: int, issue: Issue)
    requires IsOwnIssue(plan, duration, issue)
    ensures issue.section < |plan|
  {
  }

  lemma EndIssuesAreGaps(plan: seq<Plan>, order: seq<nat>, duration: int, issue: Issue)
    requires Indices(plan, order)
    ensures issue in EndIssues(plan, order, duration) ==> issue.code == CoverageGap
  {
  }
}
