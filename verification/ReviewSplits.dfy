/** Splitting a review scope that is too much work, and the planning loop that does so
    (`loopChapterHalves`, `splitLoopReviewAt`, `planLoopReview`, `splitLoopCoverage`,
    internal/investigator/article_loop_convergence.go, article_loop_input.go, article_loop_reference.go). */
module ReviewSplits {
  import opened Lists
  import opened ReviewMaterial
  import ReviewScopes

  // ----- what a split must not lose

  /** Two scopes take over the chapters and originals of one. */
  ghost predicate ConservesText(r: Reading, parent: Scope, left: Scope, right: Scope) {
    && (forall id | id in parent.sectionIds :: id in left.sectionIds || id in right.sectionIds)
    && (forall id | id in parent.sourceIds && id in r.transcript :: id in left.sourceIds || id in right.sourceIds)
  }

  /** And its frames. */
  ghost predicate Conserves(r: Reading, parent: Scope, left: Scope, right: Scope) {
    && ConservesText(r, parent, left, right)
    && (forall id | id in parent.frameIds :: id in left.frameIds || id in right.frameIds)
  }

  // ----- halves of chapters

  ghost predicate CitesNone(transcript: seq<string>, refs: set<string>, n: nat)
    requires n <= |transcript|
  {
    forall m | 0 <= m < n :: transcript[m] !in refs
  }

  /** Position `at` is a cited one, and of the first `n` none is closer to `i`; of two as close, the earlier counts. */
  ghost predicate IsClosest(transcript: seq<string>, refs: set<string>, i: int, at: int, n: nat) {
    && 0 <= at < n <= |transcript| && transcript[at] in refs
    && forall m {:trigger transcript[m]} | 0 <= m < n && transcript[m] in refs ::
      ReviewScopes.Distance(i, at) < ReviewScopes.Distance(i, m) || (ReviewScopes.Distance(i, at) == ReviewScopes.Distance(i, m) && at <= m)
  }

  /** An original that neither half cites goes where the closest cited one goes; left if there is none. */
  ghost predicate FollowsClosest(transcript: seq<string>, left: set<string>, right: set<string>, i: int, inLeft: bool, inRight: bool) {
    if CitesNone(transcript, left + right, |transcript|) then inLeft && !inRight
    else exists j :: IsClosest(transcript, left + right, i, j, |transcript|) && inLeft == (transcript[j] in left) && inRight == (transcript[j] in right)
  }

  ghost predicate IsDealt(transcript: seq<string>, left: set<string>, right: set<string>, i: int, inLeft: bool, inRight: bool)
    requires 0 <= i < |transcript|
  {
    var citedLeft, citedRight := transcript[i] in left, transcript[i] in right;
    if citedLeft || citedRight then inLeft == citedLeft && inRight == citedRight
    else FollowsClosest(transcript, left, right, i, inLeft, inRight)
  }

  /** A frame of a named chapter. */
  ghost predicate HasOwnFrame(a: Article, sectionIds: seq<string>, n: nat, id: string)
    requires n <= |a.sections|
  {
    exists k | 0 <= k < n :: a.sections[k].id in sectionIds && id in ContentFrames(a, a.sections[k])
  }

  ghost predicate IsLeftFrame(a: Article, parent: Scope, left: seq<string>, right: seq<string>, id: string) {
    HasOwnFrame(a, left, |a.sections|, id) || (id in parent.frameIds && !HasOwnFrame(a, right, |a.sections|, id))
  }

  /** Both halves have the frames of their chapters; what is left of the parent's goes left. */
  ghost predicate AreFramesDealt(a: Article, parent: Scope, left: Scope, right: Scope) {
    && (forall id :: id in right.frameIds <==> HasOwnFrame(a, right.sectionIds, |a.sections|, id))
    && (forall id :: id in left.frameIds <==> IsLeftFrame(a, parent, left.sectionIds, right.sectionIds, id))
  }

  /** Cited originals stay with the chapters that cite them; all others go to some half. */
  ghost predicate AreHalves(r: Reading, parent: Scope, left: Scope, right: Scope) {
    && left.sectionIds + right.sectionIds == parent.sectionIds && |left.sectionIds| == |parent.sectionIds| / 2
    && (forall id | id in left.sourceIds || id in right.sourceIds :: id in parent.sourceIds && id in r.transcript)
    && (forall id | id in parent.sourceIds && id in r.transcript ::
          && (id in left.sourceIds || id in right.sourceIds)
          && (id in Cited(r.article, left.sectionIds) ==> id in left.sourceIds)
          && (id in Cited(r.article, right.sectionIds) ==> id in right.sourceIds))
    && (Distinct(r.transcript) ==> forall i | 0 <= i < |r.transcript| && r.transcript[i] in parent.sourceIds ::
          IsDealt(r.transcript, Cited(r.article, left.sectionIds), Cited(r.article, right.sectionIds), i,
                  r.transcript[i] in left.sourceIds, r.transcript[i] in right.sourceIds))
    && KeepsOrder(r.transcript, left.sourceIds, |r.transcript|) && KeepsOrder(r.transcript, right.sourceIds, |r.transcript|)
    && AreFramesDealt(r.article, parent, left, right)
  }

  lemma HalvesConserve(r: Reading, parent: Scope, left: Scope, right: Scope)
    requires AreHalves(r, parent, left, right)
    ensures Conserves(r, parent, left, right)
  {
    hide Cited, HasOwnFrame;
    forall id | id in parent.sectionIds ensures id in left.sectionIds || id in right.sectionIds {
      assert id in left.sectionIds + right.sectionIds;
    }
  }

  method NearestHalf(r: Reading, i: nat, leftRefs: seq<string>, rightRefs: seq<string>) returns (inLeft: bool, inRight: bool)
    requires i < |r.transcript|
    ensures FollowsClosest(r.transcript, Elements(leftRefs), Elements(rightRefs), i, inLeft, inRight)
  {
    inLeft, inRight := false, false;
    var best := |r.transcript| + 1;
    ghost var at, refs := -1, Elements(leftRefs) + Elements(rightRefs);
    for j := 0 to |r.transcript|
      invariant at < 0 ==> !inLeft && !inRight && best == |r.transcript| + 1 && CitesNone(r.transcript, refs, j)
      invariant at >= 0 ==> at < j && best == ReviewScopes.Distance(i, at) && IsClosest(r.transcript, refs, i, at, j)
      invariant at >= 0 ==> inLeft == (r.transcript[at] in leftRefs) && inRight == (r.transcript[at] in rightRefs)
    {
      var neighbour := r.transcript[j];
      var distance := ReviewScopes.Distance(i, j);
      if distance < best && (neighbour in leftRefs || neighbour in rightRefs) {
        best, at := distance, j;
        inLeft, inRight := neighbour in leftRefs, neighbour in rightRefs;
      }
    }
    if !inLeft && !inRight {
      inLeft := true;
    }
  }

  method ChapterHalves(r: Reading, parent: Scope) returns (left: Scope, right: Scope)
    ensures AreHalves(r, parent, left, right)
    ensures left == EMPTY.(sectionIds := left.sectionIds, sourceIds := left.sourceIds, contextSourceIds := left.contextSourceIds, frameIds := left.frameIds)
    ensures right == EMPTY.(sectionIds := right.sectionIds, sourceIds := right.sourceIds, contextSourceIds := right.contextSourceIds, frameIds := right.frameIds)
  {
    hide Cited, HasOwnFrame, Merge, IsDealt, KeepsOrder;
    var mid := |parent.sectionIds| / 2;
    left := ScopeEvidence(EMPTY.(sectionIds := parent.sectionIds[..mid]), r.article);
    right := ScopeEvidence(EMPTY.(sectionIds := parent.sectionIds[mid..]), r.article);
    var leftRefs, rightRefs := left.contextSourceIds, right.contextSourceIds;
    var leftSources, rightSources := DealSources(r, parent, leftRefs, rightRefs);
    var leftFrames, rightFrames := DealFrames(r, parent, left.sectionIds, right.sectionIds);
    left := ScopeEvidence(left.(sourceIds := leftSources, contextSourceIds := [], frameIds := leftFrames), r.article);
    right := ScopeEvidence(right.(sourceIds := rightSources, contextSourceIds := [], frameIds := rightFrames), r.article);
    assert parent.sectionIds[..mid] + parent.sectionIds[mid..] == parent.sectionIds;
    assert Elements(leftRefs) == Cited(r.article, left.sectionIds) && Elements(rightRefs) == Cited(r.article, right.sectionIds);
    assert forall id :: (id in leftRefs <==> id in Elements(leftRefs)) && (id in rightRefs <==> id in Elements(rightRefs));
  }

  method DealSources(r: Reading, parent: Scope, leftRefs: seq<string>, rightRefs: seq<string>) returns (left: seq<string>, right: seq<string>)
    ensures forall id | id in left || id in right :: id in parent.sourceIds && id in r.transcript
    ensures forall id | id in parent.sourceIds && id in r.transcript ::
      && (id in left || id in right) && (id in leftRefs ==> id in left) && (id in rightRefs ==> id in right)
    ensures Distinct(r.transcript) ==> forall i | 0 <= i < |r.transcript| && r.transcript[i] in parent.sourceIds ::
      IsDealt(r.transcript, Elements(leftRefs), Elements(rightRefs), i, r.transcript[i] in left, r.transcript[i] in right)
    ensures KeepsOrder(r.transcript, left, |r.transcript|) && KeepsOrder(r.transcript, right, |r.transcript|)
  {
    hide FollowsClosest, KeepsOrder;
    left, right := [], [];
    OrderStarts(r.transcript);
    for i := 0 to |r.transcript|
      invariant forall id | id in left || id in right :: id in parent.sourceIds && id in r.transcript[..i]
      invariant forall k | 0 <= k < i && r.transcript[k] in parent.sourceIds ::
        && (r.transcript[k] in left || r.transcript[k] in right)
        && (r.transcript[k] in leftRefs ==> r.transcript[k] in left) && (r.transcript[k] in rightRefs ==> r.transcript[k] in right)
      invariant Distinct(r.transcript) ==> forall k | 0 <= k < i && r.transcript[k] in parent.sourceIds ::
        IsDealt(r.transcript, Elements(leftRefs), Elements(rightRefs), k, r.transcript[k] in left, r.transcript[k] in right)
      invariant KeepsOrder(r.transcript, left, i) && KeepsOrder(r.transcript, right, i)
    {
      OrderGoesOn(r.transcript, left, i);
      OrderGoesOn(r.transcript, right, i);
      TakeOneMore(r.transcript, i + 1);
      var id := r.transcript[i];
      if id !in parent.sourceIds {
        continue;
      }
      var inLeft, inRight := id in leftRefs, id in rightRefs;
      if !inLeft && !inRight {
        inLeft, inRight := NearestHalf(r, i, leftRefs, rightRefs);
        FollowsSomewhere(r.transcript, Elements(leftRefs), Elements(rightRefs), i, inLeft, inRight);
      }
      if inLeft {
        left := left + [id];
      }
      if inRight {
        right := right + [id];
      }
    }
  }

  /** A choice of the first `n` values, in their order. */
  ghost predicate KeepsOrder(all: seq<string>, out: seq<string>, n: nat)
    requires n <= |all|
  {
    (forall x | x in out :: x in all[..n]) && (Distinct(all) ==> out == InOrderFirst(all, Elements(out), n))
  }

  lemma OrderStarts(all: seq<string>)
    ensures KeepsOrder(all, [], 0)
  {
  }

  lemma OrderGoesOn(all: seq<string>, out: seq<string>, i: nat)
    requires i < |all| && KeepsOrder(all, out, i)
    ensures KeepsOrder(all, out, i + 1) && KeepsOrder(all, out + [all[i]], i + 1)
  {
    TakeOneMore(all, i + 1);
    if Distinct(all) {
      assert all[i] !in all[..i];
      assert Elements(out + [all[i]]) == Elements(out) + {all[i]};
      SameInOrder(all, Elements(out), Elements(out + [all[i]]), i);
    }
  }

  lemma {:induction false} SameInOrder(all: seq<string>, keep: set<string>, keep': set<string>, n: nat)
    requires n <= |all| && forall x | x in all[..n] :: x in keep <==> x in keep'
    ensures InOrderFirst(all, keep, n) == InOrderFirst(all, keep', n)
  {
    if n > 0 {
      TakeOneMore(all, n);
      SameInOrder(all, keep, keep', n - 1);
    }
  }

  lemma FollowsSomewhere(transcript: seq<string>, left: set<string>, right: set<string>, i: int, inLeft: bool, inRight: bool)
    requires FollowsClosest(transcript, left, right, i, inLeft, inRight)
    ensures inLeft || inRight
  {
  }

  method DealFrames(r: Reading, parent: Scope, leftSections: seq<string>, rightSections: seq<string>) returns (left: seq<string>, right: seq<string>)
    ensures forall id :: id in right <==> HasOwnFrame(r.article, rightSections, |r.article.sections|, id)
    ensures forall id :: id in left <==> IsLeftFrame(r.article, parent, leftSections, rightSections, id)
  {
    hide ContentFrames, Merge;
    left, right := [], [];
    for k := 0 to |r.article.sections|
      invariant forall id :: (id in left <==> HasOwnFrame(r.article, leftSections, k, id)) && (id in right <==> HasOwnFrame(r.article, rightSections, k, id))
    {
      var section := r.article.sections[k];
      if section.id in leftSections {
        left := ReviewScopes.AppendAll(left, ContentFrames(r.article, section));
      }
      if section.id in rightSections {
        right := ReviewScopes.AppendAll(right, ContentFrames(r.article, section));
      }
    }
    ghost var own := left;
    for i := 0 to |parent.frameIds|
      invariant forall id :: id in left <==> id in own || (id in parent.frameIds[..i] && id !in right)
    {
      TakeOneMore(parent.frameIds, i + 1);
      if parent.frameIds[i] !in left && parent.frameIds[i] !in right {
        left := left + [parent.frameIds[i]];
      }
    }
    assert parent.frameIds[..|parent.frameIds|] == parent.frameIds;
  }

  // ----- halves of sources

  function ConcernedWith(limitations: seq<Limitation>, id: string, n: nat): set<string>
    requires n <= |limitations|
  {
    if n == 0 then {}
    else
      ConcernedWith(limitations, id, n - 1)
      + if id in limitations[n - 1].sectionIds then Elements(limitations[n - 1].segmentIds) else {}
  }

  function LimitingFrames(limitations: seq<Limitation>, id: string, n: nat): set<string>
    requires n <= |limitations|
  {
    if n == 0 then {}
    else
      LimitingFrames(limitations, id, n - 1)
      + if id in limitations[n - 1].sectionIds then Elements(limitations[n - 1].citedFrames) else {}
  }

  function FramesIn(blocks: seq<Block>, n: nat): set<string>
    requires n <= |blocks|
  {
    if n == 0 then {} else FramesIn(blocks, n - 1) + Elements(blocks[n - 1].citedFrames) + Elements(blocks[n - 1].frameIds)
  }

  /** The originals and the frames that a chapter and its limitations rest on. */
  function Originals(a: Article, section: Section): set<string> {
    BlocksCite(section.blocks, |section.blocks|) + ConcernedWith(a.limitations, section.id, |a.limitations|)
  }

  function Frames(a: Article, section: Section): set<string> {
    FramesIn(section.blocks, |section.blocks|) + LimitingFrames(a.limitations, section.id, |a.limitations|)
  }

  /** A chapter goes with the sources it rests on; one without originals stays in every half. */
  predicate Belongs(a: Article, section: Section, scope: Scope) {
    section.id in scope.sectionIds && (Originals(a, section) == {} || Originals(a, section) * Elements(scope.sourceIds) != {})
  }

  function ChaptersFirst(a: Article, scope: Scope, n: nat): seq<string>
    requires n <= |a.sections|
  {
    if n == 0 then []
    else
      var front := ChaptersFirst(a, scope, n - 1);
      if Belongs(a, a.sections[n - 1], scope) then front + [a.sections[n - 1].id] else front
  }

  /** A frame that a named chapter shows or cites. */
  ghost predicate IsKnownFrame(a: Article, scope: Scope, belonging: bool, n: nat, id: string)
    requires n <= |a.sections|
  {
    exists k | 0 <= k < n :: a.sections[k].id in scope.sectionIds && (belonging ==> Belongs(a, a.sections[k], scope)) && id in Frames(a, a.sections[k])
  }

  /** `loopScopeChapters`: the complete chapters that the sources belong to, in article order, with all
      that they cite as context; a frame goes only when none but left-out chapters have it. */
  method ScopeChapters(a: Article, scope: Scope) returns (out: Scope)
    ensures out == scope.(sectionIds := ChaptersFirst(a, scope, |a.sections|), frameIds := out.frameIds, contextSourceIds := out.contextSourceIds)
    ensures forall id :: id in out.frameIds <==>
      id in scope.frameIds && (IsKnownFrame(a, scope, false, |a.sections|, id) ==> IsKnownFrame(a, scope, true, |a.sections|, id))
    ensures Elements(out.contextSourceIds) == Elements(scope.contextSourceIds) + (Cited(a, out.sectionIds) - Elements(scope.sourceIds))
  {
    hide Originals, Frames, Cited;
    var sections: seq<string>, known: set<string>, selected: set<string> := [], {}, {};
    for i := 0 to |a.sections|
      invariant sections == ChaptersFirst(a, scope, i)
      invariant forall id :: (id in known <==> IsKnownFrame(a, scope, false, i, id)) && (id in selected <==> IsKnownFrame(a, scope, true, i, id))
    {
      var section := a.sections[i];
      if section.id !in scope.sectionIds {
        continue;
      }
      var originals, frames := Originals(a, section), Frames(a, section);
      known := known + frames;
      if originals == {} || originals * Elements(scope.sourceIds) != {} {
        sections, selected := sections + [section.id], selected + frames;
      }
    }
    var frames := [];
    for i := 0 to |scope.frameIds|
      invariant forall id :: id in frames <==> id in scope.frameIds[..i] && (id in known ==> id in selected)
    {
      TakeOneMore(scope.frameIds, i + 1);
      if scope.frameIds[i] !in known || scope.frameIds[i] in selected {
        frames := frames + [scope.frameIds[i]];
      }
    }
    assert scope.frameIds[..|scope.frameIds|] == scope.frameIds;
    out := ScopeEvidence(scope.(sectionIds := sections, frameIds := frames), a);
  }

  lemma {:induction false} ChaptersBelong(a: Article, scope: Scope, n: nat, id: string)
    requires n <= |a.sections|
    ensures id in ChaptersFirst(a, scope, n) <==> exists k | 0 <= k < n :: a.sections[k].id == id && Belongs(a, a.sections[k], scope)
  {
    hide Belongs;
    if n > 0 {
      ChaptersBelong(a, scope, n - 1, id);
    }
  }
}
