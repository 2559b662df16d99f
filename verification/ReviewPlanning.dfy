/** Planning the review of an article and replanning it: the object that holds the pending tasks and
    the frozen plan (`planLoopReview`, `splitLoopReviewAt`, `splitLoopCoverage`,
    `refreshLoopCoverageWork`; internal/investigator/article_loop_input.go, article_loop_reference.go,
    article_loop_work.go). */
module ReviewPlanning {
  import opened Lists
  import opened Wrappers
  import opened ReviewMaterial
  import opened ReviewSplits
  import opened ReviewHalving
  import opened ReviewTasks
  import opened ReviewPlans
  import opened ReviewWork
  import CoverageWork
  import CoveragePlan
  import ReviewScopes

  const LOCAL_WORK := 24000

  /** What measuring the frozen input of a scope against the context window tells. */
  datatype Capacity = Fits | TooLarge | Unknown
  datatype Outcome = Done | CapacityExceeded | EvidenceChanged | BudgetExhausted | Failed

  class Planner {
    const r: Reading
    const c: CoverageWork.Survey
    /** Whether the latest review of a scope left a blocking finding open. */
    const blocked: Scope -> bool
    const budget: int
    var calls: int
    var workLimit: nat
    var sourceLimit: nat
    var scopes: seq<Scope>
    var plan: seq<Scope>

    constructor (r: Reading, c: CoverageWork.Survey, blocked: Scope -> bool, budget: int, calls: int)
      ensures this.r == r && this.c == c && this.blocked == blocked && this.budget == budget && this.calls == calls
      ensures scopes == [] && plan == []
    {
      this.r, this.c, this.blocked, this.budget, this.calls := r, c, blocked, budget, calls;
      workLimit, sourceLimit, scopes, plan := 0, 0, [], [];
    }

    method SplitCoverage(index: nat) returns (out: Outcome)
      requires index < |scopes|
      modifies `scopes, `plan
      ensures out == CapacityExceeded <==> |CoverageWork.Questions(c, old(scopes)[index])| < 2
      ensures out in {Done, CapacityExceeded, BudgetExhausted}
      ensures out == BudgetExhausted ==> |scopes| - 1 + |CoverageChildren(c, old(scopes)[index])| > budget - calls
      ensures out != Done ==> scopes == old(scopes) && plan == old(plan)
      ensures out == Done ==> var children := CoverageChildren(c, old(scopes)[index]);
        && scopes == old(scopes)[..index] + children + old(scopes)[index + 1..] && |scopes| <= budget - calls
        && (IsRelations(old(scopes)[index]) ==> plan == Replanned(old(plan), old(scopes)[index], children, []))
    {
      hide CoverageWork.QuestionsFirst;
      var parent := scopes[index];
      var questions := CoverageWork.ReferenceQuestions(c, parent);
      if |questions| < 2 {
        return CapacityExceeded;
      }
      var children := CoverageChildren(c, parent);
      var next := scopes[..index] + children + scopes[index + 1..];
      if |next| > budget - calls {
        return BudgetExhausted;
      }
      scopes := next;
      var i := IndexOf(plan, parent.id);
      if i < |plan| {
        plan := plan[..i] + children + plan[i + 1..];
      }
      out := Done;
    }

    /** Half of the sources each, with the chapters and frames that belong to them. */
    method SourceHalves(scope: Scope) returns (ok: bool, left: Scope, right: Scope)
      requires |scope.sectionIds| <= 1 && |scope.sourceIds| > 1
      ensures ok <==> !LosesDuties(r, scope)
      ensures AreHalvesOf(r, scope, left, right)
      ensures ok ==> Conserves(r, scope, left, right)
      ensures left.coverageQuestionIds == right.coverageQuestionIds == scope.coverageQuestionIds
      ensures Distinct(ReviewScopes.SectionIds(r.article)) && HoldsFrames(r.article, scope) ==> HoldsFrames(r.article, left) && HoldsFrames(r.article, right)
    {
      hide ChaptersFirst, IsKnownFrame, HoldsFrames;
      var mid := |scope.sourceIds| / 2;
      assert |scope.sourceIds| / 2 == mid;
      ghost var first, second := scope.(sourceIds := scope.sourceIds[..mid]), scope.(sourceIds := scope.sourceIds[mid..]);
      left := ScopeChapters(r.article, scope.(sourceIds := scope.sourceIds[..mid]));
      right := ScopeChapters(r.article, scope.(sourceIds := scope.sourceIds[mid..]));
      ok := (forall id | id in scope.sectionIds :: id in left.sectionIds || id in right.sectionIds)
        && (forall id | id in scope.frameIds :: id in left.frameIds || id in right.frameIds);
      HalvesHold(scope.sourceIds, mid);
      if Distinct(ReviewScopes.SectionIds(r.article)) && HoldsFrames(r.article, scope) {
        SameHolds(r.article, scope, first);
        SameHolds(r.article, scope, second);
        SourceHalfHoldsFrames(r, first, left);
        SourceHalfHoldsFrames(r, second, right);
      }
    }

    /** Halves of one local scope, before they are put into context. */
    method Halves(scope: Scope) returns (out: Outcome, left: Scope, right: Scope)
      ensures out in {Done, CapacityExceeded, EvidenceChanged}
      ensures out == CapacityExceeded <==> NothingToHalve(scope)
      ensures out == EvidenceChanged <==> LosesDuties(r, scope)
      ensures out == Done ==> AreHalvesOf(r, scope, left, right) && Conserves(r, scope, left, right)
      ensures out == Done && |scope.sectionIds| > 1 ==> left.coverageQuestionIds == right.coverageQuestionIds == []
      ensures out == Done && |scope.sectionIds| <= 1 ==> left.coverageQuestionIds == right.coverageQuestionIds == scope.coverageQuestionIds
      ensures out == Done && |scope.sectionIds| <= 1 && |scope.sourceIds| <= 1 ==>
        left.sectionIds == right.sectionIds == scope.sectionIds && left.sourceIds == right.sourceIds == scope.sourceIds
      ensures out == Done && (|scope.sectionIds| > 1 || |scope.sourceIds| > 1) && Distinct(ReviewScopes.SectionIds(r.article)) && HoldsFrames(r.article, scope) ==>
        HoldsFrames(r.article, left) && HoldsFrames(r.article, right)
    {
      hide AreHalves, HoldsFrames, KeepsFrame, ChaptersFirst;
      out, left, right := Done, scope, scope;
      if |scope.sectionIds| > 1 {
        left, right := ChapterHalves(r, scope);
        HalvesConserve(r, scope, left, right);
        HalvesHoldFrames(r, scope, left, right);
      } else if |scope.sourceIds| > 1 {
        var ok;
        ok, left, right := SourceHalves(scope);
        out := if ok then Done else EvidenceChanged;
      } else if |scope.frameIds| > 1 {
        var mid := |scope.frameIds| / 2;
        left, right := scope.(frameIds := scope.frameIds[..mid]), scope.(frameIds := scope.frameIds[mid..]);
        HalvesHold(scope.frameIds, mid);
      } else {
        out := CapacityExceeded;
      }
    }

    /** The halves with their context and identity, if both are less work. Halves of the frames alone
        are not, so a local task of one chapter and one original is never divided. */
    method LocalChildren(scope: Scope) returns (out: Outcome, left: Scope, right: Scope)
      requires !IsRelations(scope)
      ensures out in {Done, CapacityExceeded, EvidenceChanged}
      ensures out == EvidenceChanged <==> LosesDuties(r, scope)
      ensures out == CapacityExceeded ==> CannotShrink(r, scope)
      ensures Distinct(r.transcript) && CannotShrink(r, scope) ==> out == CapacityExceeded
      ensures out == Done ==> AreHalvesOf(r, scope, left, right) && AreLess(r, scope, left, right)
      ensures out == Done ==> IsSplit(r, c, scope, [left, right], if scope.global then [RelationsOf(r, scope)] else [])
      ensures out == Done && !scope.global ==> |scope.sectionIds| > 1 || |scope.sourceIds| > 1
    {
      hide Work, AreHalvesOf, Conserves, InContext, Sealed, HoldsFrames, IsDigest, CoverageChildren, LosesDuties, CannotShrink, NothingToHalve;
      out, left, right := Halves(scope);
      NothingLost(r, scope);
      if out != Done {
        return;
      }
      ghost var left0, right0 := left, right;
      left, right := left.(global := false, boundedContext := true), right.(global := false, boundedContext := true);
      SealedHalf(r, left);
      SealedHalf(r, right);
      left, right := Sealed(r, left), Sealed(r, right);
      SameConserves(r, scope, left0, right0, left, right);
      SameHolds(r.article, left0, left);
      SameHolds(r.article, right0, right);
      ConservesBoth(r, scope, left, right);
      SameHalves(r, scope, left0, right0, left, right);
      HalvesTell(r, scope, left, right);
      if Work(r, left) >= Work(r, scope) || Work(r, right) >= Work(r, scope) {
        return CapacityExceeded, left, right;
      }
      if !scope.global {
        SameWorkload(r, scope, left);
      }
    }

    /** While a candidate is reviewed. */
    ghost predicate Working()
      reads this
    {
      IsWork(r, c, Backlog(scopes, plan))
    }

    /** A scope that cannot be split: a standing objection holds it together, or it has nothing to be
        divided by. */
    ghost predicate GivesUp(s: Scope)
    {
      blocked(s) || if IsRelations(s) then |CoverageWork.Questions(c, s)| < 2 else CannotShrink(r, s)
    }

    /** How many tasks a split adds. */
    ghost function Added(s: Scope): nat {
      FewChildren(c, s);
      if IsRelations(s) then |CoverageChildren(c, s)| - 1 else if s.global then 2 else 1
    }

    /** A local scope makes way for its halves, which go to the end of the frozen plan. */
    method SplitLocal(index: nat) returns (out: Outcome, ghost children: seq<Scope>, ghost tail: seq<Scope>)
      requires index < |scopes| && !IsRelations(scopes[index])
      modifies `scopes, `plan
      ensures out in {Done, CapacityExceeded, EvidenceChanged, BudgetExhausted}
      ensures out == EvidenceChanged <==> LosesDuties(r, old(scopes)[index])
      ensures out == CapacityExceeded ==> CannotShrink(r, old(scopes)[index])
      ensures Distinct(r.transcript) && CannotShrink(r, old(scopes)[index]) ==> out == CapacityExceeded
      ensures out in {CapacityExceeded, EvidenceChanged} ==> scopes == old(scopes) && plan == old(plan)
      ensures out in {Done, BudgetExhausted} ==>
        && IsSplit(r, c, old(scopes)[index], children, tail)
        && |children| == 2 && AreHalvesOf(r, old(scopes)[index], children[0], children[1]) && AreLess(r, old(scopes)[index], children[0], children[1])
        && scopes == old(scopes)[..index] + children + old(scopes)[index + 1..] + tail
        && plan == Replanned(old(plan), old(scopes)[index], children, tail)
        && (out == Done <==> |scopes| <= budget - calls) && |scopes| == |old(scopes)| + Added(old(scopes)[index])
    {
      hide IsSplit, AreHalvesOf, AreLess, CannotShrink, LosesDuties, IndexOf, Work;
      var scope := scopes[index];
      children, tail := [], [];
      var left, right;
      out, left, right := LocalChildren(scope);
      if out != Done {
        return;
      }
      children, tail := [left, right], if scope.global then [RelationsOf(r, scope)] else [];
      var next := scopes[..index] + [left, right] + scopes[index + 1..] + if scope.global then [RelationsOf(r, scope)] else [];
      scopes := next;
      var i := IndexOf(plan, scope.id);
      if i < |plan| {
        plan := plan[..i] + plan[i + 1..] + [left, right] + if scope.global then [RelationsOf(r, scope)] else [];
      }
      if |next| > budget - calls {
        out := BudgetExhausted;
      }
    }

    /** A split continues the work. A scope that cannot be split is refused, and nothing else is; nothing
        changes then. */
    method SplitAt(index: nat) returns (out: Outcome, ghost children: seq<Scope>, ghost tail: seq<Scope>)
      requires index < |scopes|
      modifies `scopes, `plan
      ensures out == CapacityExceeded ==> GivesUp(old(scopes)[index])
      ensures Distinct(r.transcript) && GivesUp(old(scopes)[index]) ==> out == CapacityExceeded
      ensures out == EvidenceChanged <==> !blocked(old(scopes)[index]) && !IsRelations(old(scopes)[index]) && LosesDuties(r, old(scopes)[index])
      ensures out != Failed && (out == BudgetExhausted ==> |old(scopes)| + Added(old(scopes)[index]) > budget - calls && |old(scopes)| <= |scopes|)
      ensures out !in {Done, BudgetExhausted} ==> scopes == old(scopes) && plan == old(plan)
      ensures out == Done ==> IsSplit(r, c, old(scopes)[index], children, tail) && |scopes| <= budget - calls
      ensures out == Done && !IsRelations(old(scopes)[index]) ==>
        |children| == 2 && AreHalvesOf(r, old(scopes)[index], children[0], children[1]) && AreLess(r, old(scopes)[index], children[0], children[1])
      ensures out == Done ==> scopes == old(scopes)[..index] + children + old(scopes)[index + 1..] + tail
      ensures out == Done ==> plan == Replanned(old(plan), old(scopes)[index], children, tail)
      ensures out == Done && old(Working()) ==> Continues(r, c, old(Backlog(scopes, plan)), Backlog(scopes, plan))
    {
      hide Work, CoverageChildren, CoverageWork.QuestionsFirst, Conserves, IndexOf, HoldsFrames, IsWork, Continues, IsDigest, ConservesText, CannotShrink, LosesDuties, AreHalvesOf, AreLess, Replanned;
      var scope := scopes[index];
      children, tail := [], [];
      ghost var before := Backlog(scopes, plan);
      if blocked(scope) {
        return CapacityExceeded, [], [];
      }
      if IsRelations(scope) {
        children := CoverageChildren(c, scope);
        FewChildren(c, scope);
        out := SplitCoverage(index);
        assert scopes + [] == scopes;
      } else {
        out, children, tail := SplitLocal(index);
      }
      if out == Done && IsWork(r, c, before) {
        SplitGoesOn(r, c, before, index, children, tail, Backlog(scopes, plan));
      }
    }

    function LocalLimit(): nat
      reads this
    {
      if workLimit > 0 then workLimit else LOCAL_WORK
    }

    /** A scope that needs no further split. */
    ghost predicate Settled(s: Scope, capacity: Scope -> Capacity)
      reads this
    {
      && (!s.global ==> Work(r, s) <= LocalLimit())
      && (sourceLimit > 0 ==> |s.sourceIds| <= sourceLimit)
      && capacity(s) == Fits
    }

    ghost predicate NeedsSplit(s: Scope, capacity: Scope -> Capacity)
      reads this
    {
      (!s.global && Work(r, s) > LocalLimit()) || (sourceLimit > 0 && |s.sourceIds| > sourceLimit) || capacity(s) == TooLarge
    }

    /** Why planning does not get past a scope. */
    ghost predicate IsStuckOn(s: Scope, capacity: Scope -> Capacity, out: Outcome)
      reads this
    {
      match out
      case CapacityExceeded => NeedsSplit(s, capacity) && GivesUp(s)
      case EvidenceChanged => NeedsSplit(s, capacity) && !blocked(s) && !IsRelations(s) && LosesDuties(r, s)
      case Failed => capacity(s) == Unknown
      case _ => false
    }

    /** Planning ends at the first scope that is not settled. */
    ghost predicate IsStuck(capacity: Scope -> Capacity, out: Outcome)
      reads this
    {
      exists i :: 0 <= i < |scopes| && IsStuckOn(scopes[i], capacity, out) && forall k | 0 <= k < i :: Settled(scopes[k], capacity)
    }

    lemma StuckAt(i: nat, capacity: Scope -> Capacity, out: Outcome)
      requires i < |scopes| && forall k | 0 <= k < i :: Settled(scopes[k], capacity)
      requires out in {CapacityExceeded, EvidenceChanged, Failed} && IsStuckOn(scopes[i], capacity, out)
      ensures IsStuck(capacity, out)
    {
      hide IsStuckOn, Settled;
    }

    /** The loop of `planLoopReview`: a scope that is too much work is split where it stands, and its
        halves are examined in turn. Either the position advances or a scope is added within the
        remaining calls, so the loop ends. */
    method Narrow(capacity: Scope -> Capacity) returns (out: Outcome)
      requires IsSound(r, c, scopes) && CoveragePlan.DistinctQuestions(c) && Identifies(r, c)
      modifies `scopes, `plan
      ensures out != BudgetExhausted ==> Keeps(r, old(scopes), scopes) && IsSound(r, c, scopes)
      ensures out in {CapacityExceeded, EvidenceChanged, Failed} ==> IsStuck(capacity, out)
      ensures out == BudgetExhausted ==> |scopes| + 2 > budget - calls
      ensures out == Done && Distinct(ReviewScopes.SectionIds(r.article)) && FramesWhole(r.article, old(scopes)) ==> FramesWhole(r.article, scopes)
      ensures out == Done ==> forall k | 0 <= k < |scopes| :: Settled(scopes[k], capacity)
    {
      hide Work, IsSplit, IsSound, Keeps, Replanned, FramesWhole, IsWork, Continues, AreHalvesOf, AreLess, CannotShrink, LosesDuties, CoverageWork.QuestionsFirst, GivesUp, IsStuck, CoverageChildren;
      var i := 0;
      ghost var start := scopes;
      KeepsAll(r, start);
      while i < |scopes|
        invariant 0 <= i <= |scopes| && IsSound(r, c, scopes) && Keeps(r, start, scopes)
        invariant Distinct(ReviewScopes.SectionIds(r.article)) && FramesWhole(r.article, start) ==> FramesWhole(r.article, scopes)
        invariant forall k | 0 <= k < i :: Settled(scopes[k], capacity)
        decreases if |scopes| >= budget - calls then 0 else budget - calls - |scopes|, |scopes| - i
      {
        var task := scopes[i];
        var split := (!task.global && Work(r, task) > LocalLimit()) || (sourceLimit > 0 && |task.sourceIds| > sourceLimit);
        if !split {
          match capacity(task)
          case Fits => {
            i := i + 1;
            continue;
          }
          case TooLarge =>
          case Unknown => {
            StuckAt(i, capacity, Failed);
            return Failed;
          }
        }
        ghost var before := scopes;
        ghost var children, tail;
        FewChildren(c, task);
        out, children, tail := SplitAt(i);
        if out != Done {
          if out != BudgetExhausted {
            StuckAt(i, capacity, out);
          }
          return;
        }
        SplitStep(r, c, start, before, i, children, tail, scopes);
      }
      out := Done;
    }

    /** The union of what the scopes name, as the source's maps hold it. */
    method Named() returns (sections: set<string>, sources: set<string>)
      ensures forall id :: id in sections <==> exists s | s in plan :: id in s.sectionIds
      ensures forall id :: id in sources <==> exists s | s in plan :: id in s.sourceIds
    {
      sections, sources := {}, {};
      for i := 0 to |plan|
        invariant forall id :: id in sections <==> exists k :: 0 <= k < i && id in plan[k].sectionIds
        invariant forall id :: id in sources <==> exists k :: 0 <= k < i && id in plan[k].sourceIds
      {
        sections := sections + Elements(plan[i].sectionIds);
        sources := sources + Elements(plan[i].sourceIds);
      }
    }

    /** The plan names exactly the chapters and originals of the article. */
    ghost predicate NamesExactly()
      reads this
    {
      && (forall id :: id in ReviewScopes.SectionIds(r.article) <==> exists s | s in plan :: id in s.sectionIds)
      && (forall id :: id in r.transcript <==> exists s | s in plan :: id in s.sourceIds)
    }

    /** `retainedLoopScopes`: the frozen plan is used again exactly when it still names the chapters
        and originals of the article and no others; its scopes get their frames and context anew. */
    method Retained() returns (kept: Option<seq<Scope>>)
      ensures kept.Some? ==> plan != [] && |kept.value| == |plan|
      ensures Distinct(ReviewScopes.SectionIds(r.article)) && Distinct(r.transcript) ==> (kept.Some? <==> plan != [] && NamesExactly())
      ensures kept.Some? && r.article.sections == [] ==> forall s | s in plan :: s.sectionIds == []
      ensures kept.Some? ==> forall i | 0 <= i < |plan| :: kept.value[i] == InContext(r, Reframed(r.article, plan[i]))
      ensures kept.Some? ==> forall id | id in ReviewScopes.SectionIds(r.article) :: exists s | s in plan :: id in s.sectionIds
      ensures kept.Some? ==> forall id | id in r.transcript :: exists s | s in plan :: id in s.sourceIds
    {
      hide InContext, Reframed;
      if plan == [] {
        return None;
      }
      var sections, sources := Named();
      var ids := ReviewScopes.SectionIds(r.article);
      CountsTell(ids, sections);
      CountsTell(r.transcript, sources);
      if |sections| != |r.article.sections| || |sources| != |r.transcript|
        || (exists id | id in ids :: id !in sections) || (exists id | id in r.transcript :: id !in sources) {
        return None;
      }
      if r.article.sections == [] {
        NothingNamed(plan, sections);
      }
      var out := [];
      for i := 0 to |plan|
        invariant |out| == i && forall k | 0 <= k < i :: out[k] == InContext(r, Reframed(r.article, plan[k]))
      {
        var scope := ScopeContext(r, Reframed(r.article, plan[i]));
        out := out + [scope];
      }
      kept := Some(out);
    }

    /** MAIN RESULT: planning the review of an article succeeds only with tasks that are sound, each
        within its limits: the local ones cover every chapter, original and frame, every coverage
        question is asked by exactly one task, and one task, the last, judges the relations. They are
        the frozen plan from which the next revision is planned. */
    method PlanReview(capacity: Scope -> Capacity) returns (out: Outcome)
      requires CanPlan(r, c, plan)
      modifies `scopes, `plan
      ensures out == Done ==> IsPlanned(r, c, scopes) && plan == scopes && CanPlan(r, c, plan)
      ensures out == Done ==> forall k | 0 <= k < |scopes| :: Settled(scopes[k], capacity)
      ensures out == CapacityExceeded ==> IsStuck(capacity, out) || exists q | q in c.questions :: !CoveragePlan.Fits(c, [q.id])
      ensures out in {EvidenceChanged, Failed} ==> IsStuck(capacity, out)
      ensures out == BudgetExhausted ==> |scopes| + 2 > budget - calls
    {
      hide InContext, Work, IsSound, CoveragePlan.Ids, CoveragePlan.IsPlan, Identifies, Keeps, CoversMaterial, ReviewScopes.IsPlan, CoveragePlan.AllFit, NamesLocalChapters, Sealed, IsPlannable, Reframed, CoveragePlan.DistinctQuestions, AsksOnce, FramesWhole, RelationsLast, HasRelations, IsPlanned;
      var kept := Retained();
      if kept.Some? {
        scopes := kept.value;
        RetainedIsPlannable(r, c, plan, scopes);
      } else {
        ghost var cuts;
        scopes, cuts := ReviewScopes.BuildLoopScopes(r, LocalLimit());
        if r.article.sections != [] {
          BuiltCovers(r, c, LocalLimit(), scopes, cuts);
        } else {
          WholeIsPlannable(r, c);
        }
      }
      ghost var before := scopes;
      var planned: Option<seq<Scope>>;
      ghost var groups;
      planned, groups := CoveragePlan.PlanCoverage(c, scopes);
      if planned.None? {
        SomeQuestionIsTooLarge(c, before);
        return CapacityExceeded;
      }
      scopes := planned.value;
      if r.article.sections != [] {
        ArticleIsPlanned(r, c, before, groups, scopes);
      } else {
        PlannedForNothing(r, c, before, groups, scopes);
      }
      ghost var start := scopes;
      PlannedParts(r, c, start);
      out := Narrow(capacity);
      if out == Done {
        NarrowedIsPlanned(r, c, start, scopes);
        PlannedParts(r, c, scopes);
        plan := scopes;
      }
    }

    /** What the frozen plan already asks, as the source's map holds it. */
    method KnownQuestions() returns (known: set<string>)
      ensures forall id :: id in known <==> exists s | s in plan :: id in s.coverageQuestionIds
    {
      known := {};
      for i := 0 to |plan|
        invariant forall id :: id in known <==> exists k :: 0 <= k < i && id in plan[k].coverageQuestionIds
      {
        known := known + Elements(plan[i].coverageQuestionIds);
      }
    }

    /** Puts every new task of the plan before the pending relations task. */
    method InsertFresh(planned: seq<Scope>) returns (ok: bool)
      modifies `scopes
      ensures ok ==> scopes == Inserted(old(scopes), FreshFirst(planned, plan, |planned|))
      ensures RelationsIndex(old(scopes)) < |old(scopes)| ==> ok
    {
      hide Inserted, RelationsIndex;
      ghost var start := scopes;
      NothingInserted(start);
      for i := 0 to |planned|
        invariant scopes == Inserted(start, FreshFirst(planned, plan, i))
      {
        ghost var added := FreshFirst(planned, plan, i);
        FreshIsNoRelations(planned, plan, i);
        InsertedIndex(start, added);
        InsertedLength(start, added);
        var scope := planned[i];
        if !scope.global || scope.fullRelations || scope.coverageQuestionIds == [] || exists s | s in plan :: s.id == scope.id {
          continue;
        }
        var at := RelationsIndex(scopes);
        if at == |scopes| {
          return false;
        }
        InsertNext(start, added, scope);
        scopes := scopes[..at] + [scope] + scopes[at..];
      }
      ok := true;
    }

    /** `refreshLoopCoverageWork`: once no local task is pending, questions found since the plan was
        frozen get tasks of their own, inserted before the pending relations task. Nothing else
        changes, and the relations task is never missing. */
    method Refresh() returns (out: Outcome, ghost groups: seq<seq<string>>)
      modifies `scopes, `plan
      ensures HasLocal(old(scopes)) || NoNewQuestion(c, old(plan)) ==> out == Done && scopes == old(scopes) && plan == old(plan)
      ensures !HasLocal(old(scopes)) && !NoNewQuestion(c, old(plan)) && out in {Done, BudgetExhausted} ==>
        && CoveragePlan.IsPlan(c, old(plan), groups, plan) && Backlog(scopes, plan) == AfterRefresh(old(Backlog(scopes, plan)), plan)
        && (out == Done <==> |scopes| <= budget - calls)
      ensures old(Working()) && old(scopes) != [] ==> out != Failed
      ensures old(Working()) && old(scopes) != [] && out == Done ==> IsReadied(r, c, old(Backlog(scopes, plan)), Backlog(scopes, plan))
      ensures old(Working()) && plan != old(plan) ==> CoveragePlan.KeptFirst(old(plan), |old(plan)|) <= plan
    {
      hide CoveragePlan.IsPlan, CoveragePlan.AllFit, Inserted, FreshFirst, RelationsIndex, IsWork, IsReadied, CoveragePlan.KeptFirst;
      out, groups := Done, [];
      ghost var before := Backlog(scopes, plan);
      if IsWork(r, c, before) && (HasLocal(before.scopes) || NoNewQuestion(c, before.plan)) {
        NothingNewIsReadied(r, c, before);
      }
      if exists s | s in scopes :: !s.global {
        return;
      }
      var known := KnownQuestions();
      if forall q | q in c.questions :: q.id in known {
        return;
      }
      var planned;
      planned, groups := CoveragePlan.PlanCoverage(c, plan);
      if planned.None? {
        return CapacityExceeded, groups;
      }
      if IsWork(r, c, before) {
        WorkParts(r, c, before);
        PlannedTasksStay(r, c, before.plan, groups, planned.value);
        if before.scopes != [] {
          RelationsArePending(r, c, before.scopes);
          RefreshContinues(r, c, before, groups, planned.value);
        }
      }
      var ok := InsertFresh(planned.value);
      if !ok {
        return Failed, groups;
      }
      plan := planned.value;
      if |scopes| > budget - calls {
        out := BudgetExhausted;
      }
    }
  }

  // ----- halves

  lemma SourceHalfHoldsFrames(r: Reading, scope: Scope, half: Scope)
    requires |scope.sectionIds| <= 1 && Distinct(ReviewScopes.SectionIds(r.article)) && HoldsFrames(r.article, scope)
    requires half.sectionIds == ChaptersFirst(r.article, scope, |r.article.sections|)
    requires forall id :: id in half.frameIds <==>
      id in scope.frameIds && (IsKnownFrame(r.article, scope, false, |r.article.sections|, id) ==> IsKnownFrame(r.article, scope, true, |r.article.sections|, id))
    ensures HoldsFrames(r.article, half)
  {
    hide ContentFrames, Frames, Originals, ChaptersFirst;
    var a, ids := r.article, ReviewScopes.SectionIds(r.article);
    forall k, id | 0 <= k < |a.sections| && a.sections[k].id in half.sectionIds && id in ContentFrames(a, a.sections[k]) ensures id in half.frameIds {
      ChaptersBelong(a, scope, |a.sections|, a.sections[k].id);
      var m :| 0 <= m < |a.sections| && a.sections[m].id == a.sections[k].id && Belongs(a, a.sections[m], scope);
      assert ids[m] == ids[k];
      forall j | 0 <= j < |a.sections| && a.sections[j].id in scope.sectionIds ensures j == k {
        assert ids[j] == ids[k];
      }
    }
  }

  lemma HalvesHoldFrames(r: Reading, parent: Scope, left: Scope, right: Scope)
    requires AreHalves(r, parent, left, right)
    ensures HoldsFrames(r.article, left) && HoldsFrames(r.article, right)
  {
    hide ContentFrames, Cited, IsDealt, KeepsOrder;
    forall k, id | 0 <= k < |r.article.sections| && id in ContentFrames(r.article, r.article.sections[k])
      ensures r.article.sections[k].id in left.sectionIds ==> id in left.frameIds
      ensures r.article.sections[k].id in right.sectionIds ==> id in right.frameIds {
      assert r.article.sections[k].id in left.sectionIds ==> HasOwnFrame(r.article, left.sectionIds, |r.article.sections|, id);
      assert r.article.sections[k].id in right.sectionIds ==> HasOwnFrame(r.article, right.sectionIds, |r.article.sections|, id);
    }
  }

  lemma SealedHalf(r: Reading, s: Scope)
    ensures var t := Sealed(r, s); IsDigest(r, t) && SameDuties(s, t) && t.frameIds == s.frameIds && t.boundedContext == s.boundedContext
  {
    hide InContext, Sealed;
    SealedIsDigest(r, s);
    SealedAsks(r, s);
    ReviewScopes.SealedParts(r, s);
  }

  lemma SameHolds(a: Article, s: Scope, t: Scope)
    requires t.sectionIds == s.sectionIds && t.frameIds == s.frameIds
    ensures HoldsFrames(a, s) ==> HoldsFrames(a, t)
  {
    hide ContentFrames;
  }

  lemma FewChildren(c: CoverageWork.Survey, s: Scope)
    ensures 2 <= |CoverageChildren(c, s)| <= 3
  {
  }

  /** Work does not depend on frames. */
  lemma SameWorkload(r: Reading, s: Scope, t: Scope)
    requires !s.global && !t.global
    ensures s.sectionIds == t.sectionIds && s.sourceIds == t.sourceIds ==> Work(r, s) == Work(r, t)
  {
    hide ContextSources, InOrder, Weigh, CrossBlocks;
  }

  lemma SameConserves(r: Reading, parent: Scope, left: Scope, right: Scope, left': Scope, right': Scope)
    requires Conserves(r, parent, left, right)
    requires left'.sectionIds == left.sectionIds && left'.sourceIds == left.sourceIds && left'.frameIds == left.frameIds
    requires right'.sectionIds == right.sectionIds && right'.sourceIds == right.sourceIds && right'.frameIds == right.frameIds
    ensures Conserves(r, parent, left', right')
  {
  }

  /** Halves of something to halve are told from it by their duties. */
  lemma SameHalves(r: Reading, parent: Scope, left: Scope, right: Scope, left': Scope, right': Scope)
    requires AreHalvesOf(r, parent, left, right)
    requires left'.sectionIds == left.sectionIds && left'.sourceIds == left.sourceIds && left'.frameIds == left.frameIds
    requires right'.sectionIds == right.sectionIds && right'.sourceIds == right.sourceIds && right'.frameIds == right.frameIds
    ensures AreHalvesOf(r, parent, left', right')
  {
    hide Cited, IsDealt, KeepsOrder, ChaptersFirst, KeepsFrame;
  }

  lemma NothingLost(r: Reading, s: Scope)
    ensures NothingToHalve(s) ==> CannotShrink(r, s) && !LosesDuties(r, s)
    ensures LosesDuties(r, s) ==> !CannotShrink(r, s)
  {
    hide ChaptersFirst, KeepsFrame, AreHalvesOf;
  }

  lemma ConservesBoth(r: Reading, parent: Scope, left: Scope, right: Scope)
    requires Conserves(r, parent, left, right)
    ensures ConservesText(r, parent, left, right)
  {
    hide ConservesText;
  }

  lemma PendingIsTidy(r: Reading, c: CoverageWork.Survey, w: Backlog, i: nat)
    requires IsWork(r, c, w) && i < |w.scopes|
    ensures w.scopes[i].global ==> IsRelations(w.scopes[i])
  {
    hide CanPlan, IsDigest, IsAsked, OneFinal, AsksAtMostOnce, FramesWhole, CoveragePlan.Ids, HasSection;
    assert w.scopes[i] in w.scopes;
  }

  lemma SplitGoesOn(r: Reading, c: CoverageWork.Survey, w: Backlog, i: nat, children: seq<Scope>, tail: seq<Scope>, after: Backlog)
    requires IsWork(r, c, w) && i < |w.scopes| && IsSplit(r, c, w.scopes[i], children, tail)
    requires after.scopes == w.scopes[..i] + children + w.scopes[i + 1..] + tail && after.plan == Replanned(w.plan, w.scopes[i], children, tail)
    ensures Continues(r, c, w, after)
  {
    hide IsWork, Divides, Conserves, Work, HoldsFrames, Continues, IndexOf;
    PendingIsTidy(r, c, w, i);
    assert tail == [];
    SplitContinues(r, c, w, i, children);
    assert after == AfterSplit(w, i, children);
  }

  // ----- the planning loop

  lemma SplitStep(r: Reading, c: CoverageWork.Survey, start: seq<Scope>, before: seq<Scope>, i: nat, children: seq<Scope>, tail: seq<Scope>, after: seq<Scope>)
    requires Keeps(r, start, before) && IsSound(r, c, before) && CoveragePlan.DistinctQuestions(c) && Identifies(r, c)
    requires i < |before| && IsSplit(r, c, before[i], children, tail) && after == before[..i] + children + before[i + 1..] + tail
    ensures Keeps(r, start, after) && IsSound(r, c, after) && |after| > |before| && after[..i] == before[..i]
    ensures Distinct(ReviewScopes.SectionIds(r.article)) && FramesWhole(r.article, before) ==> FramesWhole(r.article, after)
  {
    hide IsTask, OneFinal, AsksAtMostOnce, NamesLocalChapters, HasRelations, Keeps, FramesWhole, IsSplit, Identifies, CoveragePlan.DistinctQuestions;
    var plain := before[..i] + children + before[i + 1..];
    assert before[i] in before;
    NoTail(r, c, before[i], children, tail);
    assert after == plain;
    SplitDivides(r, c, before[i], children);
    SplitTasks(r, c, before[i], children);
    SplitIsSound(r, c, before, i, children, after);
    SplitKeeps(r, c, before, i, children, after);
    KeepsTransitive(r, start, before, after);
    if Distinct(ReviewScopes.SectionIds(r.article)) && FramesWhole(r.article, before) {
      SplitFramesWhole(r, c, before, i, children, after);
    }
  }

  lemma NoTail(r: Reading, c: CoverageWork.Survey, s: Scope, children: seq<Scope>, tail: seq<Scope>)
    requires IsTask(r, c, s) && IsSplit(r, c, s, children, tail)
    ensures tail == [] && IsSplit(r, c, s, children, [])
  {
    hide Divides, Conserves, Work, HoldsFrames, IsDigest;
  }

  lemma SomeQuestionIsTooLarge(c: CoverageWork.Survey, scopes: seq<Scope>)
    requires !CoveragePlan.AllFit(c, CoveragePlan.OpenQuestions(c, scopes))
    ensures exists q | q in c.questions :: !CoveragePlan.Fits(c, [q.id])
  {
    hide CoveragePlan.Fits;
    var ids := CoveragePlan.OpenQuestions(c, scopes);
    var id :| id in ids && !CoveragePlan.Fits(c, [id]);
    OpenAreQuestions(c.questions, CoveragePlan.AssignedFirst(scopes, |scopes|), |c.questions|, id);
  }

  lemma {:induction false} OpenAreQuestions(questions: seq<CoverageWork.Question>, settled: set<string>, n: nat, id: string)
    requires n <= |questions| && id in CoveragePlan.OpenFirst(questions, settled, n)
    ensures exists q | q in questions :: q.id == id
  {
    if questions[n - 1].id == id {
      assert questions[n - 1] in questions;
    } else {
      OpenAreQuestions(questions, settled, n - 1, id);
    }
  }

  lemma ArticleIsPlanned(r: Reading, c: CoverageWork.Survey, scopes: seq<Scope>, groups: seq<seq<string>>, plan: seq<Scope>)
    requires CoveragePlan.IsPlan(c, scopes, groups, plan) && IsPlannable(r, c, scopes) && Identifies(r, c) && CoveragePlan.DistinctQuestions(c)
    requires NamesLocalChapters(scopes) && CoversMaterial(r, scopes) && c.sectionIds == ReviewScopes.SectionIds(r.article)
    requires Distinct(ReviewScopes.SectionIds(r.article)) ==> FramesWhole(r.article, scopes)
    requires forall s | s in scopes && s.global :: IsRelations(s)
    ensures IsPlanned(r, c, plan)
  {
    hide CoveragePlan.IsPlan, IsPlannable, Identifies, CoveragePlan.DistinctQuestions, NamesLocalChapters, HasSection, HasSource, FramesWhole, IsSound, RelationsLast, AsksOnce;
    PlannedIsPlan(r, c, scopes, groups, plan);
  }

  lemma PlannedParts(r: Reading, c: CoverageWork.Survey, scopes: seq<Scope>)
    requires IsPlanned(r, c, scopes)
    ensures IsSound(r, c, scopes) && RelationsLast(scopes) && AsksOnce(c, scopes)
    ensures Distinct(ReviewScopes.SectionIds(r.article)) ==> FramesWhole(r.article, scopes)
  {
    hide IsSound, RelationsLast, AsksOnce, CoversMaterial, FramesWhole;
  }

  lemma NarrowedIsPlanned(r: Reading, c: CoverageWork.Survey, start: seq<Scope>, after: seq<Scope>)
    requires IsPlanned(r, c, start) && Keeps(r, start, after) && IsSound(r, c, after)
    requires Distinct(ReviewScopes.SectionIds(r.article)) && FramesWhole(r.article, start) ==> FramesWhole(r.article, after)
    ensures IsPlanned(r, c, after)
  {
    hide HasSection, HasSource, HasFrame, CoveragePlan.Ids, IsSound, FramesWhole, RelationsLast, HasRelations;
  }

  // ----- using the frozen plan again

  lemma NothingNamed(plan: seq<Scope>, sections: set<string>)
    requires |sections| == 0 && forall id :: id in sections <==> exists s | s in plan :: id in s.sectionIds
    ensures forall s | s in plan :: s.sectionIds == []
  {
    forall s | s in plan ensures s.sectionIds == [] {
      if s.sectionIds != [] {
        SomethingNamed(plan, sections, s);
      }
    }
  }

  lemma SomethingNamed(plan: seq<Scope>, sections: set<string>, s: Scope)
    requires s in plan && s.sectionIds != [] && forall id :: id in sections <==> exists s | s in plan :: id in s.sectionIds
    ensures |sections| > 0
  {
    assert s.sectionIds[0] in sections;
  }

  /** Counting tells whether a set holds exactly the values of a list. */
  lemma CountsTell(ids: seq<string>, named: set<string>)
    ensures Distinct(ids) ==> (|named| == |ids| && (forall id | id in ids :: id in named) <==> forall id :: id in ids <==> id in named)
  {
    if Distinct(ids) {
      ElementsCount(ids);
      if forall id | id in ids :: id in named {
        assert Elements(ids) <= named;
        assert |named - Elements(ids)| == |named| - |Elements(ids)|;
      }
      if forall id :: id in ids <==> id in named {
        assert Elements(ids) == named;
      }
    }
  }

  lemma WorkParts(r: Reading, c: CoverageWork.Survey, w: Backlog)
    requires IsWork(r, c, w)
    ensures IsSound(r, c, w.plan) && Identifies(r, c) && IsPending(r, c, w.scopes)
  {
    hide IsSound, Identifies, IsPending, CoveragePlan.Ids, HasSection;
  }

  lemma PlannedTasksStay(r: Reading, c: CoverageWork.Survey, plan: seq<Scope>, groups: seq<seq<string>>, planned: seq<Scope>)
    requires IsSound(r, c, plan) && Identifies(r, c) && CoveragePlan.IsPlan(c, plan, groups, planned)
    ensures CoveragePlan.KeptFirst(plan, |plan|) <= planned
  {
    hide IsSound, Identifies, CoveragePlan.IsPlan, CoveragePlan.KeptFirst;
    SoundHasFinal(r, c, plan);
    CoveragePlan.EstablishedTasksStay(c, plan, groups, planned);
  }
}
