/** Chapter plans and the parts of a video that they cover (internal/investigator/authoring.go, draft.go). */
module AuthoringRanges {
  import opened Lists
  import opened Text
  import opened Wrappers

  datatype Plan = Plan(id: string, title: string, startMs: int, endMs: int, evidenceIds: seq<string>)

  datatype Code = InvalidId | MissingTitle | InvalidRange | CoverageGap
  datatype Issue = Issue(section: nat, code: Code)
  datatype Verdict = WrongSize | Issues(issues: seq<Issue>)

  const MAX_SECTIONS := 40
  const MAX_ID_BYTES := 80

  // ----- one section

  predicate IdFits(id: string) {
    id != "" && Utf8Length(id) <= MAX_ID_BYTES
  }

  predicate InVideo(p: Plan, duration: int) {
    0 <= p.startMs < p.endMs <= duration
  }

  function Ids(plan: seq<Plan>, n: nat): set<string>
    requires n <= |plan|
  {
    if n == 0 then {} else Ids(plan, n - 1) + {plan[n - 1].id}
  }

  function SectionIssues(plan: seq<Plan>, duration: int, i: nat): seq<Issue>
    requires i < |plan|
  {
    (if !IdFits(plan[i].id) || plan[i].id in Ids(plan, i) then [Issue(i, InvalidId)] else [])
    + (if TrimSpace(plan[i].title) == "" then [Issue(i, MissingTitle)] else [])
    + (if !InVideo(plan[i], duration) then [Issue(i, InvalidRange)] else [])
  }

  function OwnIssues(plan: seq<Plan>, duration: int, n: nat): seq<Issue>
    requires n <= |plan|
  {
    if n == 0 then [] else OwnIssues(plan, duration, n - 1) + SectionIssues(plan, duration, n - 1)
  }

  // ----- the sweep over the video

  /** The sections with a range in the video. */
  function Ranged(plan: seq<Plan>, duration: int, n: nat): (order: seq<nat>)
    requires n <= |plan|
    ensures forall j | 0 <= j < |order| :: order[j] < n
  {
    if n == 0 then []
    else if InVideo(plan[n - 1], duration) then Ranged(plan, duration, n - 1) + [n - 1]
    else Ranged(plan, duration, n - 1)
  }

  ghost predicate Indices(plan: seq<Plan>, order: seq<nat>) {
    forall j | 0 <= j < |order| :: order[j] < |plan|
  }

  /** After everything that starts no later. */
  function Insert(plan: seq<Plan>, order: seq<nat>, i: nat): (out: seq<nat>)
    requires Indices(plan, order) && i < |plan|
    ensures forall k :: k in out <==> k in order || k == i
    ensures Indices(plan, out)
  {
    if order == [] then [i]
    else
      var last := order[|order| - 1];
      if plan[last].startMs <= plan[i].startMs then order + [i]
      else
        assert order == order[..|order| - 1] + [last];
        Insert(plan, order[..|order| - 1], i) + [last]
  }

  /** `slices.SortStableFunc` by start. */
  function Sort(plan: seq<Plan>, order: seq<nat>): (out: seq<nat>)
    requires Indices(plan, order)
    ensures forall k :: k in out <==> k in order
    ensures Indices(plan, out)
  {
    if order == [] then []
    else
      assert order == order[..|order| - 1] + [order[|order| - 1]];
      Insert(plan, Sort(plan, order[..|order| - 1]), order[|order| - 1])
  }

  function Max(a: int, b: int): int {
    if a < b then b else a
  }

  /** How far the first `n` sections reach. */
  function Reach(plan: seq<Plan>, order: seq<nat>, n: nat): int
    requires Indices(plan, order) && n <= |order|
  {
    if n == 0 then 0 else Max(Reach(plan, order, n - 1), plan[order[n - 1]].endMs)
  }

  function Gaps(plan: seq<Plan>, order: seq<nat>, n: nat): seq<Issue>
    requires Indices(plan, order) && n <= |order|
  {
    if n == 0 then []
    else
      Gaps(plan, order, n - 1)
      + if plan[order[n - 1]].startMs > Reach(plan, order, n - 1) then [Issue(order[n - 1], CoverageGap)] else []
  }

  function EndIssues(plan: seq<Plan>, order: seq<nat>, duration: int): seq<Issue>
    requires Indices(plan, order)
  {
    if order != [] && Reach(plan, order, |order|) != duration then [Issue(order[|order| - 1], CoverageGap)] else []
  }

  /** `validateAuthoringPlan`. */
  function Check(plan: seq<Plan>, duration: int): Verdict {
    if |plan| < 1 || |plan| > MAX_SECTIONS then WrongSize
    else
      var order := Sort(plan, Ranged(plan, duration, |plan|));
      Issues(OwnIssues(plan, duration, |plan|) + Gaps(plan, order, |order|) + EndIssues(plan, order, duration))
  }

  method CheckSection(plan: seq<Plan>, duration: int, i: nat, ids: set<string>) returns (issues: seq<Issue>)
    requires i < |plan| && ids == Ids(plan, i)
    ensures issues == SectionIssues(plan, duration, i)
  {
    hide TrimSpace, Utf8Length, Ids;
    issues := [];
    var p := plan[i];
    if p.id == "" || Utf8Length(p.id) > MAX_ID_BYTES || p.id in ids {
      issues := issues + [Issue(i, InvalidId)];
    }
    if TrimSpace(p.title) == "" {
      issues := issues + [Issue(i, MissingTitle)];
    }
    if p.startMs < 0 || p.endMs <= p.startMs || p.endMs > duration {
      issues := issues + [Issue(i, InvalidRange)];
    }
  }

  method CheckSections(plan: seq<Plan>, duration: int) returns (issues: seq<Issue>, order: seq<nat>)
    ensures issues == OwnIssues(plan, duration, |plan|) && order == Ranged(plan, duration, |plan|)
  {
    hide SectionIssues;
    issues, order := [], [];
    var ids: set<string> := {};
    for i := 0 to |plan|
      invariant issues == OwnIssues(plan, duration, i) && ids == Ids(plan, i) && order == Ranged(plan, duration, i)
    {
      var more := CheckSection(plan, duration, i, ids);
      issues := issues + more;
      ids := ids + {plan[i].id};
      if InVideo(plan[i], duration) {
        order := order + [i];
      }
    }
  }

  method Sweep(plan: seq<Plan>, order: seq<nat>, duration: int) returns (issues: seq<Issue>)
    requires Indices(plan, order)
    ensures issues == Gaps(plan, order, |order|) + EndIssues(plan, order, duration)
  {
    issues := [];
    var end := 0;
    for k := 0 to |order|
      invariant issues == Gaps(plan, order, k) && end == Reach(plan, order, k)
    {
      var p := plan[order[k]];
      if p.startMs > end {
        issues := issues + [Issue(order[k], CoverageGap)];
      }
      end := Max(end, p.endMs);
    }
    if order != [] && end != duration {
      issues := issues + [Issue(order[|order| - 1], CoverageGap)];
    }
  }

  method ValidateAuthoringPlan(plan: seq<Plan>, duration: int) returns (r: Verdict)
    ensures r == Check(plan, duration)
  {
    hide OwnIssues, Ranged, Sort, Gaps, EndIssues;
    if |plan| < 1 || |plan| > MAX_SECTIONS {
      return WrongSize;
    }
    var own, ranged := CheckSections(plan, duration);
    var gaps := Sweep(plan, Sort(plan, ranged), duration);
    r := Issues(own + gaps);
    var order := Sort(plan, ranged);
    assert own + (Gaps(plan, order, |order|) + EndIssues(plan, order, duration)) == own + Gaps(plan, order, |order|) + EndIssues(plan, order, duration);
  }

  // ----- plans whose sections come with times

  /** `validateSectionPlan`: each section starts where the ones before end or, with overlap, no later and
      no earlier than the one before. */
  predicate StartFits(plan: seq<Plan>, overlap: bool, i: nat, end: int, lastStart: int)
    requires i < |plan|
  {
    if overlap then lastStart <= plan[i].startMs <= end else plan[i].startMs == end
  }

  /** How far the first `n` sections reach, when they are all accepted. */
  function AcceptFirst(plan: seq<Plan>, duration: int, overlap: bool, n: nat): Option<int>
    requires n <= |plan|
  {
    if n == 0 then Some(0)
    else
      var front, p := AcceptFirst(plan, duration, overlap, n - 1), plan[n - 1];
      if front.None? then None
      else if !IdFits(p.id) || p.id in Ids(plan, n - 1) || TrimSpace(p.title) == ""
              || !StartFits(plan, overlap, n - 1, front.value, if n == 1 then 0 else plan[n - 2].startMs) || !InVideo(p, duration) then None
      else Some(Max(front.value, p.endMs))
  }

  predicate Accepts(plan: seq<Plan>, duration: int, overlap: bool) {
    1 <= |plan| <= MAX_SECTIONS && AcceptFirst(plan, duration, overlap, |plan|) == Some(duration)
  }

  lemma {:induction false} RefusedStays(plan: seq<Plan>, duration: int, overlap: bool, n: nat, end: nat)
    requires n <= end <= |plan| && AcceptFirst(plan, duration, overlap, n).None?
    ensures AcceptFirst(plan, duration, overlap, end).None?
  {
    hide TrimSpace, Utf8Length;
    if n < end {
      RefusedStays(plan, duration, overlap, n, end - 1);
    }
  }

  method ValidateSectionPlan(plan: seq<Plan>, duration: int, overlap: bool) returns (ok: bool)
    ensures ok == Accepts(plan, duration, overlap)
  {
    hide TrimSpace, Utf8Length;
    var ids: set<string>, end, lastStart := {}, 0, 0;
    if |plan| < 1 || |plan| > MAX_SECTIONS {
      return false;
    }
    var i := 0;
    while i < |plan|
      invariant 0 <= i <= |plan| && ids == Ids(plan, i) && AcceptFirst(plan, duration, overlap, i) == Some(end)
      invariant lastStart == if i == 0 then 0 else plan[i - 1].startMs
    {
      var p := plan[i];
      var validStart := p.startMs == end;
      if overlap {
        validStart := p.startMs >= lastStart && p.startMs <= end;
      }
      if p.id == "" || Utf8Length(p.id) > MAX_ID_BYTES || p.id in ids || TrimSpace(p.title) == "" || !validStart
         || p.startMs < 0 || p.endMs <= p.startMs || p.endMs > duration {
        RefusedStays(plan, duration, overlap, i + 1, |plan|);
        return false;
      }
      ids := ids + {p.id};
      lastStart := p.startMs;
      end := Max(end, p.endMs);
      i := i + 1;
    }
    ok := end == duration;
  }

  // ----- deriving the times from the evidence

  /** What a citation says about time. */
  datatype Timing = Timing(range: Option<(int, int)>, timeMs: Option<int>)

  function Min(a: int, b: int): int {
    if a < b then a else b
  }

  function Widen(span: (int, int), c: Timing, duration: int): (int, int) {
    var ranged := match c.range case None => span case Some(r) => (Min(span.0, r.0), Max(span.1, r.1));
    match c.timeMs
    case None => ranged
    case Some(t) => (Min(ranged.0, t), Max(ranged.1, Min(duration, t + 1)))
  }

  /** From the earliest to the latest moment of the first `n` pieces of evidence. */
  function Span(catalog: map<string, Timing>, ids: seq<string>, duration: int, n: nat): (int, int)
    requires n <= |ids|
  {
    if n == 0 then (duration, 0)
    else if ids[n - 1] in catalog then Widen(Span(catalog, ids, duration, n - 1), catalog[ids[n - 1]], duration)
    else Span(catalog, ids, duration, n - 1)
  }

  function Timed(p: Plan, catalog: map<string, Timing>, duration: int): Plan {
    var span := Span(catalog, p.evidenceIds, duration, |p.evidenceIds|);
    p.(startMs := span.0, endMs := span.1)
  }

  function AllTimed(plan: seq<Plan>, catalog: map<string, Timing>, duration: int): (out: seq<Plan>)
    ensures |out| == |plan|
  {
    seq(|plan|, i requires 0 <= i < |plan| => Timed(plan[i], catalog, duration))
  }

  function Anchored(plan: seq<Plan>, duration: int): (out: seq<Plan>)
    ensures |out| == |plan|
  {
    if plan == [] then []
    else
      var first := plan[0 := plan[0].(startMs := 0)];
      first[|plan| - 1 := first[|plan| - 1].(endMs := duration)]
  }

  /** Sections before `n` reach the start of the next one. */
  function Filled(plan: seq<Plan>, n: nat): (out: seq<Plan>)
    requires n <= |plan|
    ensures |out| == |plan|
  {
    if n <= 1 then plan
    else
      var front := Filled(plan, n - 1);
      if front[n - 2].endMs < front[n - 1].startMs then front[n - 2 := front[n - 2].(endMs := front[n - 1].startMs)] else front
  }

  /** `deriveAuthoringRanges`. */
  function Derive(plan: seq<Plan>, catalog: map<string, Timing>, duration: int): seq<Plan> {
    var anchored := Anchored(AllTimed(plan, catalog, duration), duration);
    Filled(anchored, |anchored|)
  }

  method DeriveAuthoringRanges(input: seq<Plan>, catalog: map<string, Timing>, duration: int) returns (plan: seq<Plan>)
    ensures plan == Derive(input, catalog, duration)
  {
    hide Widen;
    plan := input;
    for i := 0 to |plan|
      invariant |plan| == |input|
      invariant forall k | 0 <= k < |input| :: plan[k] == if k < i then Timed(input[k], catalog, duration) else input[k]
    {
      var ids := plan[i].evidenceIds;
      var span := (duration, 0);
      for n := 0 to |ids|
        invariant span == Span(catalog, ids, duration, n)
      {
        if ids[n] in catalog {
          span := Widen(span, catalog[ids[n]], duration);
        }
      }
      plan := plan[i := plan[i].(startMs := span.0, endMs := span.1)];
    }
    assert plan == AllTimed(input, catalog, duration);
    if |plan| > 0 {
      plan := plan[0 := plan[0].(startMs := 0)];
      plan := plan[|plan| - 1 := plan[|plan| - 1].(endMs := duration)];
    }
    ghost var anchored := plan;
    assert anchored == Anchored(AllTimed(input, catalog, duration), duration);
    if |plan| > 1 {
      for i := 1 to |plan|
        invariant |plan| == |anchored| && plan == Filled(anchored, i)
      {
        if plan[i - 1].endMs < plan[i].startMs {
          plan := plan[i - 1 := plan[i - 1].(endMs := plan[i].startMs)];
        }
      }
    }
  }

  // ----- what an accepted plan covers

  ghost predicate CoveredBy(plan: seq<Plan>, order: seq<nat>, n: nat, t: int)
    requires Indices(plan, order) && n <= |order|
  {
    exists k :: 0 <= k < n && plan[order[k]].startMs <= t < plan[order[k]].endMs
  }

  ghost predicate Covers(plan: seq<Plan>, t: int) {
    exists i :: 0 <= i < |plan| && plan[i].startMs <= t < plan[i].endMs
  }

  ghost predicate CoversFirst(plan: seq<Plan>, n: nat, t: int)
    requires n <= |plan|
  {
    exists i :: 0 <= i < n && plan[i].startMs <= t < plan[i].endMs
  }

  /** What every plan must be: sections in the video, identified, titled, and together covering it. */
  ghost predicate Sound(plan: seq<Plan>, duration: int) {
    && (forall i | 0 <= i < |plan| :: IdFits(plan[i].id) && TrimSpace(plan[i].title) != "" && InVideo(plan[i], duration))
    && (forall i, j | 0 <= i < j < |plan| :: plan[i].id != plan[j].id)
    && (forall t | 0 <= t < duration :: Covers(plan, t))
  }

  ghost predicate SortedBy(plan: seq<Plan>, order: seq<nat>) {
    Indices(plan, order) && forall i, j | 0 <= i < j < |order| :: plan[order[i]].startMs <= plan[order[j]].startMs
  }

  lemma SortedSnoc(plan: seq<Plan>, order: seq<nat>, last: nat)
    requires SortedBy(plan, order) && last < |plan|
    requires forall j | 0 <= j < |order| :: plan[order[j]].startMs <= plan[last].startMs
    ensures SortedBy(plan, order + [last])
  {
  }

  lemma SortedFront(plan: seq<Plan>, order: seq<nat>)
    requires SortedBy(plan, order) && order != []
    ensures SortedBy(plan, order[..|order| - 1])
    ensures forall k | k in order :: k < |plan| && plan[k].startMs <= plan[order[|order| - 1]].startMs
  {
  }

  lemma {:induction false} InsertSorts(plan: seq<Plan>, order: seq<nat>, i: nat)
    requires SortedBy(plan, order) && i < |plan|
    ensures SortedBy(plan, Insert(plan, order, i))
  {
    if order == [] {
    } else if plan[order[|order| - 1]].startMs <= plan[i].startMs {
      SortedFront(plan, order);
      SortedSnoc(plan, order, i);
    } else {
      var front, last := order[..|order| - 1], order[|order| - 1];
      SortedFront(plan, order);
      InsertSorts(plan, front, i);
      var made := Insert(plan, front, i);
      forall j | 0 <= j < |made| ensures plan[made[j]].startMs <= plan[last].startMs {
        assert made[j] in made;
      }
      SortedSnoc(plan, made, last);
    }
  }

  lemma {:induction false} SortSorts(plan: seq<Plan>, order: seq<nat>)
    requires Indices(plan, order)
    ensures SortedBy(plan, Sort(plan, order))
  {
    if order != [] {
      SortSorts(plan, order[..|order| - 1]);
      InsertSorts(plan, Sort(plan, order[..|order| - 1]), order[|order| - 1]);
    }
  }

  lemma {:induction false} ReachIsEnd(plan: seq<Plan>, order: seq<nat>, n: nat)
    requires Indices(plan, order) && n <= |order|
    ensures Reach(plan, order, n) >= 0 && forall k | 0 <= k < n :: plan[order[k]].endMs <= Reach(plan, order, n)
    ensures Reach(plan, order, n) == 0 || exists k :: 0 <= k < n && plan[order[k]].endMs == Reach(plan, order, n)
  {
    if n > 0 {
      ReachIsEnd(plan, order, n - 1);
    }
  }

  /** Without a gap, everything up to the reach is covered. */
  lemma {:induction false} NoGapsCover(plan: seq<Plan>, order: seq<nat>, n: nat, t: int)
    requires Indices(plan, order) && n <= |order| && Gaps(plan, order, n) == [] && 0 <= t < Reach(plan, order, n)
    ensures CoveredBy(plan, order, n, t)
  {
    if t < Reach(plan, order, n - 1) {
      NoGapsCover(plan, order, n - 1, t);
      var k :| 0 <= k < n - 1 && plan[order[k]].startMs <= t < plan[order[k]].endMs;
    } else {
      assert plan[order[n - 1]].startMs <= t < plan[order[n - 1]].endMs;
    }
  }

  /** At a gap, the moment that was reached is covered by no section. */
  lemma {:induction false} GapIsUncovered(plan: seq<Plan>, order: seq<nat>, n: nat)
    requires SortedBy(plan, order) && n <= |order| && Gaps(plan, order, n) != []
    ensures exists m: nat :: m < n && plan[order[m]].startMs > Reach(plan, order, m) && !CoveredBy(plan, order, |order|, Reach(plan, order, m))
  {
    if plan[order[n - 1]].startMs > Reach(plan, order, n - 1) {
      var t := Reach(plan, order, n - 1);
      ReachIsEnd(plan, order, n - 1);
      forall k | 0 <= k < |order| ensures !(plan[order[k]].startMs <= t < plan[order[k]].endMs) {
        if k > n - 1 {
          assert plan[order[n - 1]].startMs <= plan[order[k]].startMs;
        }
      }
    } else {
      GapIsUncovered(plan, order, n - 1);
    }
  }

  lemma {:induction false} OwnIssuesAre(plan: seq<Plan>, duration: int, n: nat)
    requires n <= |plan|
    ensures OwnIssues(plan, duration, n) == [] <==> forall i | 0 <= i < n :: SectionIssues(plan, duration, i) == []
  {
    hide SectionIssues;
    if n > 0 {
      OwnIssuesAre(plan, duration, n - 1);
    }
  }

  lemma {:induction false} IdsAre(plan: seq<Plan>, n: nat, id: string)
    requires n <= |plan|
    ensures id in Ids(plan, n) <==> exists k :: 0 <= k < n && plan[k].id == id
  {
    if n > 0 {
      IdsAre(plan, n - 1, id);
    }
  }

  lemma SectionIssuesAre(plan: seq<Plan>, duration: int, i: nat)
    requires i < |plan|
    ensures SectionIssues(plan, duration, i) == [] <==> IdFits(plan[i].id) && TrimSpace(plan[i].title) != "" && InVideo(plan[i], duration) && forall k | 0 <= k < i :: plan[k].id != plan[i].id
  {
    hide TrimSpace, Utf8Length;
    IdsAre(plan, i, plan[i].id);
  }

  lemma {:induction false} RangedAre(plan: seq<Plan>, duration: int, n: nat)
    requires n <= |plan|
    ensures forall k: nat :: k in Ranged(plan, duration, n) <==> k < n && InVideo(plan[k], duration)
  {
    if n > 0 {
      RangedAre(plan, duration, n - 1);
    }
  }

  lemma CoverageByOrder(plan: seq<Plan>, duration: int, order: seq<nat>, t: int)
    requires Indices(plan, order) && forall k: nat :: k in order <==> k < |plan| && InVideo(plan[k], duration)
    requires forall i | 0 <= i < |plan| :: InVideo(plan[i], duration)
    ensures CoveredBy(plan, order, |order|, t) <==> Covers(plan, t)
  {
    if i :| 0 <= i < |plan| && plan[i].startMs <= t < plan[i].endMs {
      assert i in order;
      var k :| 0 <= k < |order| && order[k] == i;
      assert plan[order[k]].startMs <= t < plan[order[k]].endMs;
    }
  }

  lemma CoverageIsChecked(plan: seq<Plan>, duration: int, order: seq<nat>)
    requires SortedBy(plan, order) && order != [] && forall k | k in order :: InVideo(plan[k], duration)
    ensures Gaps(plan, order, |order|) == [] && EndIssues(plan, order, duration) == [] <==> forall t | 0 <= t < duration :: CoveredBy(plan, order, |order|, t)
  {
    var end := Reach(plan, order, |order|);
    ReachIsEnd(plan, order, |order|);
    assert end <= duration;
    if Gaps(plan, order, |order|) != [] {
      GapIsUncovered(plan, order, |order|);
      var m: nat :| m < |order| && plan[order[m]].startMs > Reach(plan, order, m) && !CoveredBy(plan, order, |order|, Reach(plan, order, m));
      ReachIsEnd(plan, order, m);
      assert order[m] in order && 0 <= Reach(plan, order, m) < duration;
    } else if end != duration {
      assert 0 <= end < duration && !CoveredBy(plan, order, |order|, end);
    } else {
      forall t | 0 <= t < duration ensures CoveredBy(plan, order, |order|, t) {
        NoGapsCover(plan, order, |order|, t);
      }
    }
  }

  /** A plan of allowed size has no issue exactly when its sections are identified, titled and in the
      video, and together cover every moment of it. */
  lemma NoIssuesExactly(plan: seq<Plan>, duration: int)
    requires 1 <= |plan| <= MAX_SECTIONS
    ensures Check(plan, duration) == Issues([]) <==> Sound(plan, duration)
  {
    hide TrimSpace, Utf8Length, Sort, Gaps, EndIssues, OwnIssues, SectionIssues, Ranged, Covers, CoveredBy, SortedBy;
    var ranged := Ranged(plan, duration, |plan|);
    var order := Sort(plan, ranged);
    OwnIssuesAre(plan, duration, |plan|);
    forall i | 0 <= i < |plan| ensures SectionIssues(plan, duration, i) == [] <==> IdFits(plan[i].id) && TrimSpace(plan[i].title) != "" && InVideo(plan[i], duration) && forall k | 0 <= k < i :: plan[k].id != plan[i].id {
      SectionIssuesAre(plan, duration, i);
    }
    if OwnIssues(plan, duration, |plan|) == [] {
      RangedAre(plan, duration, |plan|);
      SortSorts(plan, ranged);
      assert 0 in order;
      CoverageIsChecked(plan, duration, order);
      forall t ensures CoveredBy(plan, order, |order|, t) <==> Covers(plan, t) {
        CoverageByOrder(plan, duration, order, t);
      }
    }
  }

  // ----- plans with times

  lemma {:induction false} AcceptedCovers(plan: seq<Plan>, duration: int, overlap: bool, n: nat)
    requires n <= |plan| && AcceptFirst(plan, duration, overlap, n).Some?
    ensures forall i | 0 <= i < n :: IdFits(plan[i].id) && TrimSpace(plan[i].title) != "" && InVideo(plan[i], duration) && plan[i].id !in Ids(plan, i)
    ensures forall t | 0 <= t < AcceptFirst(plan, duration, overlap, n).value :: CoversFirst(plan, n, t)
  {
    hide TrimSpace, Utf8Length, Ids;
    if n > 0 {
      AcceptedCovers(plan, duration, overlap, n - 1);
      var front := AcceptFirst(plan, duration, overlap, n - 1).value;
      forall t | 0 <= t < AcceptFirst(plan, duration, overlap, n).value ensures CoversFirst(plan, n, t) {
        if t < front {
          assert CoversFirst(plan, n - 1, t);
          var i :| 0 <= i < n - 1 && plan[i].startMs <= t < plan[i].endMs;
        } else {
          assert plan[n - 1].startMs <= t < plan[n - 1].endMs;
        }
      }
    }
  }

  /** A plan that is accepted with its times, with or without overlap, has no issue. */
  lemma AcceptedHasNoIssues(plan: seq<Plan>, duration: int, overlap: bool)
    requires Accepts(plan, duration, overlap)
    ensures Check(plan, duration) == Issues([])
  {
    hide TrimSpace, Utf8Length, Ids, Check;
    AcceptedCovers(plan, duration, overlap, |plan|);
    forall i, j | 0 <= i < j < |plan| ensures plan[i].id != plan[j].id {
      IdsAre(plan, j, plan[j].id);
    }
    forall t | 0 <= t < duration ensures Covers(plan, t) {
      assert CoversFirst(plan, |plan|, t);
    }
    NoIssuesExactly(plan, duration);
  }

  // ----- derived times

  /** Evidence from inside the video. */
  ghost predicate Usable(c: Timing, duration: int) {
    && (c.range.Some? ==> 0 <= c.range.value.0 < c.range.value.1 <= duration)
    && (c.timeMs.Some? ==> 0 <= c.timeMs.value < duration)
  }

  /** All evidence that is known is from inside the video, and some of it has a time. */
  ghost predicate Grounded(p: Plan, catalog: map<string, Timing>, duration: int) {
    && (forall id | id in p.evidenceIds && id in catalog :: Usable(catalog[id], duration))
    && (exists id :: id in p.evidenceIds && id in catalog && (catalog[id].range.Some? || catalog[id].timeMs.Some?))
  }

  lemma {:induction false} SpanIsInside(catalog: map<string, Timing>, ids: seq<string>, duration: int, n: nat)
    requires n <= |ids| && forall id | id in ids && id in catalog :: Usable(catalog[id], duration)
    ensures var s := Span(catalog, ids, duration, n); (s == (duration, 0)) || 0 <= s.0 < s.1 <= duration
    ensures (exists k :: 0 <= k < n && ids[k] in catalog && (catalog[ids[k]].range.Some? || catalog[ids[k]].timeMs.Some?)) ==> var s := Span(catalog, ids, duration, n); 0 <= s.0 < s.1 <= duration
  {
    if n > 0 {
      SpanIsInside(catalog, ids, duration, n - 1);
      assert ids[n - 1] in ids;
    }
  }

  lemma TimedIsInVideo(p: Plan, catalog: map<string, Timing>, duration: int)
    requires Grounded(p, catalog, duration)
    ensures InVideo(Timed(p, catalog, duration), duration)
  {
    var id :| id in p.evidenceIds && id in catalog && (catalog[id].range.Some? || catalog[id].timeMs.Some?);
    var k :| 0 <= k < |p.evidenceIds| && p.evidenceIds[k] == id;
    SpanIsInside(catalog, p.evidenceIds, duration, |p.evidenceIds|);
  }

  lemma {:induction false} FilledAre(plan: seq<Plan>, duration: int, n: nat)
    requires n <= |plan| && forall i | 0 <= i < |plan| :: InVideo(plan[i], duration)
    ensures var f := Filled(plan, n); forall i | 0 <= i < |plan| :: InVideo(f[i], duration) && f[i].startMs == plan[i].startMs && f[i].endMs >= plan[i].endMs && f[i] == plan[i].(endMs := f[i].endMs)
    ensures var f := Filled(plan, n); (forall i | 0 <= i && i + 1 < n :: f[i].endMs >= f[i + 1].startMs) && forall i | n - 1 <= i < |plan| && 0 <= i :: f[i] == plan[i]
  {
    if n > 1 {
      FilledAre(plan, duration, n - 1);
      var front, f := Filled(plan, n - 1), Filled(plan, n);
      forall i | 0 <= i && i + 1 < n ensures f[i].endMs >= f[i + 1].startMs {
        if i + 1 < n - 1 {
          assert front[i].endMs >= front[i + 1].startMs;
        }
      }
    }
  }

  lemma {:induction false} ChainCovers(plan: seq<Plan>, n: nat, t: int)
    requires 0 < n <= |plan| && plan[0].startMs <= 0 <= t < plan[n - 1].endMs
    requires forall i | 0 <= i && i + 1 < n :: plan[i].endMs >= plan[i + 1].startMs
    ensures Covers(plan, t)
  {
    if plan[n - 1].startMs <= t {
    } else {
      assert plan[n - 2].endMs >= plan[n - 2 + 1].startMs;
      ChainCovers(plan, n - 1, t);
    }
  }

  /** Derived times lie in the video and cover it, whatever the order of the chapters. */
  lemma DerivedCovers(plan: seq<Plan>, catalog: map<string, Timing>, duration: int)
    requires plan != [] && forall i | 0 <= i < |plan| :: Grounded(plan[i], catalog, duration)
    ensures var d := Derive(plan, catalog, duration); |d| == |plan| && (forall i | 0 <= i < |plan| :: InVideo(d[i], duration) && d[i].id == plan[i].id && d[i].title == plan[i].title) && forall t | 0 <= t < duration :: Covers(d, t)
  {
    hide Covers, Filled, Span, Grounded;
    var anchored := Anchored(AllTimed(plan, catalog, duration), duration);
    forall i | 0 <= i < |plan| ensures InVideo(anchored[i], duration) {
      TimedIsInVideo(plan[i], catalog, duration);
    }
    FilledAre(anchored, duration, |anchored|);
    var d := Derive(plan, catalog, duration);
    assert anchored[0].startMs == 0 && anchored[|anchored| - 1].endMs == duration;
    assert d[0].startMs == 0 && d[|d| - 1].endMs == duration;
    forall t | 0 <= t < duration ensures Covers(d, t) {
      ChainCovers(d, |d|, t);
    }
  }

  /** So a derived plan can only fail for an identity or a title. */
  lemma DerivedHasNoRangeIssue(plan: seq<Plan>, catalog: map<string, Timing>, duration: int)
    requires 1 <= |plan| <= MAX_SECTIONS && forall i | 0 <= i < |plan| :: Grounded(plan[i], catalog, duration)
    ensures Check(Derive(plan, catalog, duration), duration) == Issues([]) <==> (forall i | 0 <= i < |plan| :: IdFits(plan[i].id) && TrimSpace(plan[i].title) != "") && forall i, j | 0 <= i < j < |plan| :: plan[i].id != plan[j].id
  {
    hide Covers, Derive, Check, Grounded, TrimSpace, Utf8Length;
    DerivedCovers(plan, catalog, duration);
    assert |Derive(plan, catalog, duration)| == |plan|;
    NoIssuesExactly(Derive(plan, catalog, duration), duration);
  }
}
