/** What makes a list of tasks a plan for the review of an article, and that fresh scopes and the
    frozen plan both lead to one (`planLoopReview`, `retainedLoopScopes`; internal/investigator/
    article_loop_input.go, article_loop_evidence.go). */
module ReviewPlans {
  import opened Lists
  import opened ReviewMaterial
  import opened ReviewTasks
  import CoverageWork
  import CoveragePlan
  import ReviewScopes

  // ----- plans

  ghost predicate CoversMaterial(r: Reading, scopes: seq<Scope>) {
    && (forall id | id in ReviewScopes.SectionIds(r.article) :: HasSection(scopes, id))
    && (forall id | id in r.transcript :: HasSource(scopes, id))
  }

  ghost predicate AsksOnce(c: CoverageWork.Survey, scopes: seq<Scope>) {
    forall i | 0 <= i < |c.questions| :: CoveragePlan.Ids(scopes)[c.questions[i].id] == 1
  }

  /** What planning may rely on: the frozen plan, if there is one, is sound. */
  ghost predicate CanPlan(r: Reading, c: CoverageWork.Survey, plan: seq<Scope>) {
    && Identifies(r, c) && CoveragePlan.DistinctQuestions(c) && c.sectionIds == ReviewScopes.SectionIds(r.article)
    && (plan == [] || IsSound(r, c, plan))
  }

  /** A sound list in which the relations come last and every question is asked once; its local tasks
      cover an article that has chapters, and hold all frames of their chapters. */
  ghost predicate IsPlanned(r: Reading, c: CoverageWork.Survey, scopes: seq<Scope>) {
    && IsSound(r, c, scopes) && RelationsLast(scopes) && AsksOnce(c, scopes)
    && (r.article.sections != [] ==> CoversMaterial(r, scopes))
    && (Distinct(ReviewScopes.SectionIds(r.article)) ==> FramesWhole(r.article, scopes))
  }

  /** All frames of an article, as `ContentFrameIDs` collects them. */
  function ArticleFrames(a: Article): seq<string> {
    Merge(ReviewScopes.RangeFrames(a, 0, |a.sections|), a.citationFrames)
  }

  lemma {:induction false} RangeFrame(a: Article, lo: nat, hi: nat, id: string)
    requires lo <= hi <= |a.sections|
    ensures id in ReviewScopes.RangeFrames(a, lo, hi) <==> exists k | lo <= k < hi :: id in ContentFrames(a, a.sections[k])
    decreases hi
  {
    hide ContentFrames;
    if lo < hi {
      RangeFrame(a, lo, hi - 1, id);
    }
  }

  /** Chapters with complete frames leave no frame of the article out. */
  lemma FramesAreCovered(r: Reading, scopes: seq<Scope>, id: string)
    requires r.article.sections != [] && CoversMaterial(r, scopes) && FramesWhole(r.article, scopes) && id in ArticleFrames(r.article)
    ensures HasFrame(scopes, id)
  {
    hide ContentFrames, HasSource;
    var k := ChapterOfFrame(r.article, id);
    var name := ReviewScopes.SectionIds(r.article)[k];
    assert name in ReviewScopes.SectionIds(r.article);
    var s :| s in scopes && !IsRelations(s) && name in s.sectionIds;
  }

  lemma ChapterOfFrame(a: Article, id: string) returns (k: nat)
    requires a.sections != [] && id in ArticleFrames(a)
    ensures k < |a.sections| && id in ContentFrames(a, a.sections[k])
  {
    if id in a.citationFrames {
      k := 0;
    } else {
      RangeFrame(a, 0, |a.sections|, id);
      k :| k < |a.sections| && id in ContentFrames(a, a.sections[k]);
    }
  }

  // ----- what coverage planning makes of a list

  /** Scopes that coverage planning accepts: as in a list of tasks, but a plain full-article scope may occur. */
  ghost predicate IsPlannable(r: Reading, c: CoverageWork.Survey, scopes: seq<Scope>) {
    && CoveragePlan.IsReady(scopes) && AsksAtMostOnce(scopes)
    && forall s | s in scopes ::
         && IsDigest(r, s) && (s.global && s.coverageBatch ==> s.sourceIds == []) && (CoveragePlan.IsFinal(s) ==> s.fullRelations)
         && forall id | id in s.coverageQuestionIds :: IsAsked(c, id)
  }

  lemma {:induction false} OpenIsOpen(questions: seq<CoverageWork.Question>, settled: set<string>, n: nat)
    requires n <= |questions|
    ensures forall id | id in CoveragePlan.OpenFirst(questions, settled, n) :: id !in settled && exists q | q in questions :: q.id == id
  {
    if n > 0 {
      OpenIsOpen(questions, settled, n - 1);
    }
  }

  lemma {:induction false} GroupInside(groups: seq<seq<string>>, i: nat)
    requires i < |groups|
    ensures forall id | id in groups[i] :: id in Flatten(groups)
  {
    var front, last := groups[..|groups| - 1], groups[|groups| - 1];
    if i < |front| {
      GroupInside(front, i);
    }
  }

  lemma BatchIsTask(r: Reading, c: CoverageWork.Survey, s: Scope)
    requires Identifies(r, c) && s.global && s.coverageBatch && s.sourceIds == [] && (s.coverageQuestionIds == [] ==> s.fullRelations)
    requires forall id | id in s.coverageQuestionIds :: IsAsked(c, id)
    ensures IsTask(r, c, CoveragePlan.SealedBatch(c, s))
  {
    hide CoverageWork.CoverageSources, IsAsked;
    assert CoveragePlan.SealedBatch(c, s).id == r.hash(s) && SameDuties(CoveragePlan.SealedBatch(c, s), s);
  }

  lemma NewBatchIsTask(r: Reading, c: CoverageWork.Survey, scopes: seq<Scope>, groups: seq<seq<string>>, i: nat)
    requires CoveragePlan.IsGrouping(c, groups, CoveragePlan.OpenQuestions(c, scopes)) && i < |groups| && Identifies(r, c)
    ensures groups[i] != [] && IsTask(r, c, CoveragePlan.SealedBatch(c, CoveragePlan.Batch(c, groups[i])))
  {
    hide CoverageWork.QuestionWork, CoveragePlan.SealedBatch, CoveragePlan.AssignedFirst, Identifies;
    assert CoveragePlan.Fits(c, groups[i]);
    GroupInside(groups, i);
    OpenIsOpen(c.questions, CoveragePlan.AssignedFirst(scopes, |scopes|), |c.questions|);
    BatchIsTask(r, c, CoveragePlan.Batch(c, groups[i]));
  }

  lemma KeptIsTask(r: Reading, c: CoverageWork.Survey, scopes: seq<Scope>, s: Scope)
    requires IsPlannable(r, c, scopes) && s in scopes && (!s.global || CoveragePlan.IsBatch(s) || CoveragePlan.IsFinal(s))
    ensures IsTask(r, c, s)
  {
    hide AsksAtMostOnce, IsDigest, IsAsked;
    var i :| 0 <= i < |scopes| && scopes[i] == s;
  }

  lemma PlannedTasks(r: Reading, c: CoverageWork.Survey, scopes: seq<Scope>, groups: seq<seq<string>>, plan: seq<Scope>)
    requires CoveragePlan.IsPlan(c, scopes, groups, plan) && IsPlannable(r, c, scopes) && Identifies(r, c)
    ensures forall s | s in plan :: IsTask(r, c, s) && (if s.global then IsRelations(s) else s in scopes)
  {
    hide CoveragePlan.SealedBatch, CoveragePlan.KeptFirst, CoveragePlan.FinalFirst, CoveragePlan.OpenQuestions, IsTask, IsPlannable, CoveragePlan.IsGrouping, Identifies, IsAsked;
    var n := |scopes|;
    var kept, batches, final := CoveragePlan.KeptFirst(scopes, n), CoveragePlan.SealAll(c, groups), CoveragePlan.FinalFirst(scopes, n);
    CoveragePlan.KeptAreSorted(scopes, n);
    PlannableIsReady(r, c, scopes);
    CoveragePlan.FinalIsIdentified(scopes, n);
    var out := kept + batches;
    forall i | 0 <= i < |out| ensures IsTask(r, c, out[i]) && (!out[i].global ==> out[i] in scopes) {
      if i < |kept| {
        assert kept[i] in kept;
        KeptIsTask(r, c, scopes, out[i]);
      } else {
        NewBatchIsTask(r, c, scopes, groups, i - |kept|);
        CoveragePlan.SealedQuestions(c, CoveragePlan.Batch(c, groups[i - |kept|]));
      }
    }
    LastIsTask(r, c, scopes, out, final);
    forall s | s in plan ensures s.global ==> IsRelations(s) {
      TasksAreRelations(r, c, s);
    }
  }

  lemma TasksAreRelations(r: Reading, c: CoverageWork.Survey, s: Scope)
    requires IsTask(r, c, s)
    ensures s.global ==> IsRelations(s)
  {
    hide IsDigest;
  }

  lemma PlannableIsReady(r: Reading, c: CoverageWork.Survey, scopes: seq<Scope>)
    requires IsPlannable(r, c, scopes)
    ensures CoveragePlan.IsReady(scopes) && AsksAtMostOnce(scopes)
  {
    hide AsksAtMostOnce, CoveragePlan.IsReady;
  }

  lemma LastIsTask(r: Reading, c: CoverageWork.Survey, scopes: seq<Scope>, out: seq<Scope>, final: Scope)
    requires IsPlannable(r, c, scopes) && Identifies(r, c) && forall i | 0 <= i < |out| :: IsTask(r, c, out[i]) && (!out[i].global ==> out[i] in scopes)
    requires final.id != "" ==> final in scopes && CoveragePlan.IsFinal(final)
    ensures forall s | s in CoveragePlan.Assembled(c, out, final) :: IsTask(r, c, s) && (!s.global ==> s in scopes)
  {
    hide CoveragePlan.SealedBatch, IsPlannable, Identifies, IsAsked, IsDigest;
    if final.id != "" {
      KeptIsTask(r, c, scopes, final);
    } else if out != [] && out[|out| - 1].global {
      var last := out[|out| - 1].(id := "", contextSourceIds := [], fullRelations := true);
      BatchIsTask(r, c, last);
      CoveragePlan.SealedQuestions(c, last);
    } else {
      BatchIsTask(r, c, CoveragePlan.Batch(c, []).(fullRelations := true));
      CoveragePlan.SealedQuestions(c, CoveragePlan.Batch(c, []).(fullRelations := true));
    }
  }

  lemma PlannedAsks(r: Reading, c: CoverageWork.Survey, scopes: seq<Scope>, groups: seq<seq<string>>, plan: seq<Scope>)
    requires CoveragePlan.IsPlan(c, scopes, groups, plan) && IsPlannable(r, c, scopes) && CoveragePlan.DistinctQuestions(c)
    ensures AsksOnce(c, plan) && AsksAtMostOnce(plan)
    ensures CoveragePlan.Ids(plan) == CoveragePlan.Ids(scopes) + multiset(CoveragePlan.OpenQuestions(c, scopes))
  {
    hide CoveragePlan.IsPlan, CoveragePlan.Ids, CoveragePlan.IsReady, CoveragePlan.AssignedFirst, IsDigest;
    PlannableIsReady(r, c, scopes);
    CoveragePlan.EveryQuestionHasOneTask(c, scopes, groups, plan);
    forall id ensures CoveragePlan.Ids(plan)[id] <= 1 {
      if IsAsked(c, id) {
        var q :| q in c.questions && q.id == id;
        var i: nat :| i < |c.questions| && c.questions[i] == q;
      } else {
        OpenIsOpen(c.questions, CoveragePlan.AssignedFirst(scopes, |scopes|), |c.questions|);
        assert id !in CoveragePlan.OpenQuestions(c, scopes);
      }
    }
  }

  lemma PlannedFinal(r: Reading, c: CoverageWork.Survey, scopes: seq<Scope>, groups: seq<seq<string>>, plan: seq<Scope>)
    requires CoveragePlan.IsPlan(c, scopes, groups, plan) && CoveragePlan.IsReady(scopes)
    ensures OneFinal(plan) && RelationsLast(plan) && HasRelations(plan)
  {
    hide CoveragePlan.IsPlan, CoveragePlan.IsReady, CoveragePlan.IsFinal, CoveragePlan.TakesOver;
    CoveragePlan.RelationsComeLast(c, scopes, groups, plan);
    assert plan[|plan| - 1] in plan;
  }

  /** Coverage planning of fresh scopes or of a frozen plan gives a plan. */
  lemma PlannedIsPlan(r: Reading, c: CoverageWork.Survey, scopes: seq<Scope>, groups: seq<seq<string>>, plan: seq<Scope>)
    requires CoveragePlan.IsPlan(c, scopes, groups, plan) && IsPlannable(r, c, scopes) && Identifies(r, c) && CoveragePlan.DistinctQuestions(c)
    requires NamesLocalChapters(scopes) && forall id | id in c.sectionIds :: HasSection(scopes, id)
    requires forall s | s in scopes && s.global :: IsRelations(s)
    ensures IsSound(r, c, plan) && RelationsLast(plan) && AsksOnce(c, plan)
    ensures forall id | HasSection(scopes, id) :: HasSection(plan, id)
    ensures forall id | HasSource(scopes, id) :: HasSource(plan, id)
    ensures FramesWhole(r.article, scopes) ==> FramesWhole(r.article, plan)
  {
    hide CoveragePlan.IsPlan, CoveragePlan.IsReady, CoveragePlan.Ids, HasSection, HasSource, IsTask, IsPlannable, Identifies, HasRelations, OneFinal, RelationsLast, CoveragePlan.DistinctQuestions, NamesLocalChapters, HoldsFrames, AsksOnce, AsksAtMostOnce;
    PlannableIsReady(r, c, scopes);
    PlannedTasks(r, c, scopes, groups, plan);
    PlannedAsks(r, c, scopes, groups, plan);
    PlannedFinal(r, c, scopes, groups, plan);
    LocalsStay(r, c, scopes, groups, plan);
    PlanNamesLocalChapters(c, scopes, groups, plan);
  }

  lemma LocalsStay(r: Reading, c: CoverageWork.Survey, scopes: seq<Scope>, groups: seq<seq<string>>, plan: seq<Scope>)
    requires CoveragePlan.IsPlan(c, scopes, groups, plan) && CoveragePlan.IsReady(scopes)
    requires forall s | s in scopes && s.global :: IsRelations(s)
    ensures forall id | HasSection(scopes, id) :: HasSection(plan, id)
    ensures forall id | HasSource(scopes, id) :: HasSource(plan, id)
  {
    hide CoveragePlan.IsPlan, CoveragePlan.IsReady;
    forall s | s in scopes && !s.global ensures s in plan {
      CoveragePlan.LocalsStay(c, scopes, groups, plan, s);
    }
  }

  lemma PlanNamesLocalChapters(c: CoverageWork.Survey, scopes: seq<Scope>, groups: seq<seq<string>>, plan: seq<Scope>)
    requires CoveragePlan.IsPlan(c, scopes, groups, plan) && CoveragePlan.IsReady(scopes) && NamesLocalChapters(scopes)
    requires forall id | HasSection(scopes, id) :: HasSection(plan, id)
    requires forall id | id in c.sectionIds :: HasSection(scopes, id)
    ensures NamesLocalChapters(plan)
  {
    hide CoveragePlan.IsPlan, CoveragePlan.IsReady, HasSection;
    forall s, id | s in plan && id in s.sectionIds ensures HasSection(plan, id) {
      CoveragePlan.PlanSections(c, scopes, groups, plan, s);
    }
  }

  // ----- a frozen plan is used again

  function ChapterFrames(a: Article, scope: Scope, n: nat): seq<string>
    requires n <= |a.sections|
  {
    if n == 0 then []
    else
      var front := ChapterFrames(a, scope, n - 1);
      if a.sections[n - 1].id in scope.sectionIds then Merge(front, ContentFrames(a, a.sections[n - 1])) else front
  }

  /** The frames of the scope's chapters as they are now; a relations task has none. */
  function Reframed(a: Article, scope: Scope): Scope {
    scope.(frameIds := if IsRelations(scope) then [] else ChapterFrames(a, scope, |a.sections|))
  }

  lemma {:induction false} ChapterFramesHold(a: Article, scope: Scope, n: nat, k: nat, id: string)
    requires k < n <= |a.sections| && a.sections[k].id in scope.sectionIds && id in ContentFrames(a, a.sections[k])
    ensures id in ChapterFrames(a, scope, n)
  {
    hide ContentFrames;
    if k < n - 1 {
      ChapterFramesHold(a, scope, n - 1, k, id);
    }
  }

  lemma ReframedHolds(a: Article, scope: Scope)
    requires !IsRelations(scope)
    ensures HoldsFrames(a, Reframed(a, scope))
  {
    hide ContentFrames, ChapterFrames;
    var s := Reframed(a, scope);
    forall k, id | 0 <= k < |a.sections| && a.sections[k].id in s.sectionIds && id in ContentFrames(a, a.sections[k]) ensures id in s.frameIds {
      ChapterFramesHold(a, scope, |a.sections|, k, id);
    }
  }

  lemma ReframedIsAlike(r: Reading, s: Scope)
    ensures var t := InContext(r, Reframed(r.article, s)); SameWork(s, t) && t.frameIds == Reframed(r.article, s).frameIds
  {
    hide ChapterFrames, ContextSources, CrossChapterBlocks;
  }

  ghost predicate AreAlike(a: seq<Scope>, b: seq<Scope>) {
    |a| == |b| && forall i | 0 <= i < |a| :: SameWork(a[i], b[i])
  }

  lemma {:induction false} AlikeIds(a: seq<Scope>, b: seq<Scope>, n: nat)
    requires AreAlike(a, b) && n <= |a|
    ensures CoveragePlan.IdsFirst(a, n) == CoveragePlan.IdsFirst(b, n)
  {
    if n > 0 {
      AlikeIds(a, b, n - 1);
      assert SameWork(a[n - 1], b[n - 1]);
    }
  }

  lemma AlikeAsks(a: seq<Scope>, b: seq<Scope>)
    requires AreAlike(a, b)
    ensures CoveragePlan.Ids(a) == CoveragePlan.Ids(b) && |a| == |b|
  {
    AlikeIds(a, b, |a|);
  }

  lemma AlikeHas(a: seq<Scope>, b: seq<Scope>)
    requires AreAlike(a, b)
    ensures forall id :: HasSection(a, id) <==> HasSection(b, id)
    ensures forall id :: HasSource(a, id) <==> HasSource(b, id)
  {
    assert forall i | 0 <= i < |a| :: a[i] in a && b[i] in b && SameWork(a[i], b[i]);
  }

  lemma AlikeNames(a: seq<Scope>, b: seq<Scope>)
    requires AreAlike(a, b) && NamesLocalChapters(a)
    ensures NamesLocalChapters(b)
  {
    hide HasSection;
    AlikeHas(a, b);
    forall s, id | s in b && id in s.sectionIds ensures HasSection(b, id) {
      var i :| 0 <= i < |b| && b[i] == s;
      assert a[i] in a && id in a[i].sectionIds;
    }
  }

  lemma AlikeFinals(a: seq<Scope>, b: seq<Scope>)
    requires AreAlike(a, b) && OneFinal(a) && HasRelations(a)
    ensures OneFinal(b) && HasRelations(b)
  {
    var s :| s in a && CoveragePlan.IsFinal(s);
    var k :| 0 <= k < |a| && a[k] == s;
    assert b[k] in b && CoveragePlan.IsFinal(b[k]);
    forall i | 0 <= i < |a| ensures CoveragePlan.IsFinal(b[i]) <==> CoveragePlan.IsFinal(a[i]) {
    }
  }

  lemma AlikeIsTask(r: Reading, c: CoverageWork.Survey, s: Scope, t: Scope)
    requires SameWork(s, t) && IsTask(r, c, s)
    ensures IsTask(r, c, t)
  {
    var u :| s.id == r.hash(u) && SameDuties(s, u);
    assert SameDuties(t, u);
  }

  lemma AlikeIsSound(r: Reading, c: CoverageWork.Survey, a: seq<Scope>, b: seq<Scope>)
    requires IsSound(r, c, a) && AreAlike(a, b)
    ensures IsSound(r, c, b) && CoveragePlan.Ids(a) == CoveragePlan.Ids(b)
  {
    hide IsTask, CoveragePlan.Ids, NamesLocalChapters, HasRelations, OneFinal, SameWork;
    AlikeAsks(a, b);
    AlikeNames(a, b);
    AlikeFinals(a, b);
    forall s | s in b ensures IsTask(r, c, s) {
      var i :| 0 <= i < |b| && b[i] == s;
      assert a[i] in a;
      AlikeIsTask(r, c, a[i], s);
    }
  }

  lemma SoundIsPlannable(r: Reading, c: CoverageWork.Survey, scopes: seq<Scope>)
    requires IsSound(r, c, scopes) && Identifies(r, c)
    ensures IsPlannable(r, c, scopes) && NamesLocalChapters(scopes) && forall s | s in scopes && s.global :: IsRelations(s)
  {
    hide NamesLocalChapters, HasRelations, AsksAtMostOnce, IsDigest, IsAsked;
    ListIsReady(r, c, scopes);
  }

  /** The frozen plan covers what it names, in its new context and with the frames of the article. */
  lemma RetainedIsPlannable(r: Reading, c: CoverageWork.Survey, plan: seq<Scope>, scopes: seq<Scope>)
    requires IsSound(r, c, plan) && Identifies(r, c)
    requires |scopes| == |plan| && forall i | 0 <= i < |plan| :: scopes[i] == InContext(r, Reframed(r.article, plan[i]))
    requires forall id | id in ReviewScopes.SectionIds(r.article) :: exists s | s in plan :: id in s.sectionIds
    requires forall id | id in r.transcript :: exists s | s in plan :: id in s.sourceIds
    ensures IsPlannable(r, c, scopes) && NamesLocalChapters(scopes) && CoversMaterial(r, scopes) && FramesWhole(r.article, scopes)
    ensures HasRelations(scopes) && forall s | s in scopes && s.global :: IsRelations(s)
    ensures forall i | 0 <= i < |plan| :: scopes[i].sectionIds == plan[i].sectionIds
  {
    hide InContext, Reframed, HasSection, IsTask, CoveragePlan.Ids, HasSource, OneFinal, AsksAtMostOnce, HasRelations, HoldsFrames, Identifies, IsPlannable;
    forall i | 0 <= i < |plan| ensures SameWork(plan[i], scopes[i]) && (!IsRelations(scopes[i]) ==> HoldsFrames(r.article, scopes[i])) {
      ReframedIsAlike(r, plan[i]);
      if !IsRelations(scopes[i]) {
        FramesFollow(r, plan[i]);
      }
    }
    assert AreAlike(plan, scopes);
    AlikeIsSound(r, c, plan, scopes);
    SoundIsPlannable(r, c, scopes);
    SoundIsPlannable(r, c, plan);
    AlikeHas(plan, scopes);
    forall id | id in r.transcript ensures HasSource(plan, id) {
      var s :| s in plan && id in s.sourceIds;
      LocalHasSource(plan, s, id);
    }
  }

  lemma LocalHasSource(plan: seq<Scope>, s: Scope, id: string)
    requires s in plan && id in s.sourceIds
    ensures HasSource(plan, id)
  {
  }

  lemma FramesFollow(r: Reading, s: Scope)
    requires !IsRelations(InContext(r, Reframed(r.article, s)))
    ensures HoldsFrames(r.article, InContext(r, Reframed(r.article, s)))
  {
    hide InContext, Reframed, ContentFrames;
    ReframedIsAlike(r, s);
    ReframedHolds(r.article, s);
    ReframedNames(r.article, s);
  }

  lemma ReframedNames(a: Article, s: Scope)
    ensures Reframed(a, s).sectionIds == s.sectionIds && IsRelations(Reframed(a, s)) == IsRelations(s)
  {
  }

  // ----- fresh scopes

  ghost predicate AsksNothing(s: Scope) {
    !s.coverageBatch && s.coverageQuestionIds == [] && !s.fullRelations
  }

  lemma SealedAsks(r: Reading, s: Scope)
    ensures SameDuties(Sealed(r, s), s) && Sealed(r, s).frameIds == s.frameIds
  {
    hide ContextSources, CrossChapterBlocks, InOrder;
  }

  lemma {:induction false} NothingAsked(scopes: seq<Scope>, n: nat)
    requires n <= |scopes| && forall i | 0 <= i < |scopes| :: AsksNothing(scopes[i])
    ensures CoveragePlan.IdsFirst(scopes, n) == multiset{}
  {
    if n > 0 {
      NothingAsked(scopes, n - 1);
    }
  }

  lemma FreshIsPlannable(r: Reading, c: CoverageWork.Survey, scopes: seq<Scope>)
    requires forall i | 0 <= i < |scopes| :: AsksNothing(scopes[i]) && IsDigest(r, scopes[i])
    ensures IsPlannable(r, c, scopes) && forall s | s in scopes :: !CoveragePlan.IsBatch(s)
  {
    hide CoveragePlan.IdsFirst, IsDigest, IsAsked;
    NothingAsked(scopes, |scopes|);
  }

  lemma BuiltTasks(r: Reading, limit: nat, scopes: seq<Scope>, cuts: seq<nat>)
    requires ReviewScopes.IsPlan(r, limit, scopes, cuts)
    ensures scopes != [] && forall i | 0 <= i < |scopes| :: AsksNothing(scopes[i]) && IsDigest(r, scopes[i]) && (scopes[i].global <==> i == |scopes| - 1)
  {
    hide Sealed, Work, ReviewScopes.EndsFull, ReviewScopes.OwnedBy, ReviewScopes.RangeFrames, IsDigest;
    var locals := scopes[..|scopes| - 1];
    forall i | 0 <= i < |scopes| ensures AsksNothing(scopes[i]) && IsDigest(r, scopes[i]) && (scopes[i].global <==> i == |scopes| - 1) {
      if i < |scopes| - 1 {
        var lo, hi := cuts[i], ReviewScopes.After(cuts, i);
        assert ReviewScopes.IsLocal(r, limit, locals[i], lo, hi) && locals[i] == scopes[i];
        SealedAsks(r, ReviewScopes.RangeScope(r, lo, hi));
        SealedIsDigest(r, ReviewScopes.RangeScope(r, lo, hi));
      } else {
        SealedAsks(r, ReviewScopes.Relations(r));
        SealedIsDigest(r, ReviewScopes.Relations(r));
      }
    }
  }

  lemma LocalHoldsFrames(r: Reading, limit: nat, s: Scope, lo: nat, hi: nat)
    requires ReviewScopes.IsLocal(r, limit, s, lo, hi) && Distinct(ReviewScopes.SectionIds(r.article))
    ensures HoldsFrames(r.article, s)
  {
    hide Sealed, Work, ReviewScopes.OwnedBy, ReviewScopes.RangeFrames, ContentFrames;
    var ids := ReviewScopes.SectionIds(r.article);
    SealedAsks(r, ReviewScopes.RangeScope(r, lo, hi));
    forall k, id | 0 <= k < |ids| && r.article.sections[k].id in s.sectionIds && id in ContentFrames(r.article, r.article.sections[k]) ensures id in s.frameIds {
      var m :| 0 <= m < |s.sectionIds| && s.sectionIds[m] == ids[k];
      assert ids[lo..hi][m] == ids[lo + m];
      RangeFrame(r.article, lo, hi, id);
    }
  }

  lemma BuiltHoldsFrames(r: Reading, limit: nat, scopes: seq<Scope>, cuts: seq<nat>)
    requires ReviewScopes.IsPlan(r, limit, scopes, cuts) && Distinct(ReviewScopes.SectionIds(r.article))
    ensures FramesWhole(r.article, scopes)
  {
    hide Sealed, Work, ReviewScopes.EndsFull, HoldsFrames, ReviewScopes.IsLocal;
    var locals := scopes[..|scopes| - 1];
    SealedAsks(r, ReviewScopes.Relations(r));
    forall i | 0 <= i < |scopes| && !IsRelations(scopes[i]) ensures HoldsFrames(r.article, scopes[i]) {
      assert locals[i] == scopes[i] && ReviewScopes.IsLocal(r, limit, locals[i], cuts[i], ReviewScopes.After(cuts, i));
      LocalHoldsFrames(r, limit, scopes[i], cuts[i], ReviewScopes.After(cuts, i));
    }
  }

  lemma {:induction false} FlattenMember(scopes: seq<Scope>, id: string)
    requires id in Flatten(ReviewScopes.SectionLists(scopes))
    ensures exists s | s in scopes :: id in s.sectionIds
  {
    if scopes != [] {
      var front := scopes[..|scopes| - 1];
      assert ReviewScopes.SectionLists(scopes)[..|scopes| - 1] == ReviewScopes.SectionLists(front);
      if id in Flatten(ReviewScopes.SectionLists(front)) {
        FlattenMember(front, id);
      } else {
        assert id in scopes[|scopes| - 1].sectionIds;
      }
    }
  }

  lemma BuiltCovers(r: Reading, c: CoverageWork.Survey, limit: nat, scopes: seq<Scope>, cuts: seq<nat>)
    requires r.article.sections != [] && ReviewScopes.IsPlan(r, limit, scopes, cuts)
    ensures IsPlannable(r, c, scopes) && CoversMaterial(r, scopes) && NamesLocalChapters(scopes)
    ensures Distinct(ReviewScopes.SectionIds(r.article)) ==> FramesWhole(r.article, scopes)
    ensures forall s | s in scopes :: !CoveragePlan.IsBatch(s) && (s.global ==> IsRelations(s))
  {
    hide Work, IsPlannable, ReviewScopes.IsPlan, ReviewScopes.SectionLists, Flatten, IsDigest, FramesWhole;
    BuiltTasks(r, limit, scopes, cuts);
    FreshIsPlannable(r, c, scopes);
    ReviewScopes.PlanCoversArticle(r, limit, scopes, cuts);
    if Distinct(ReviewScopes.SectionIds(r.article)) {
      BuiltHoldsFrames(r, limit, scopes, cuts);
    }
    var locals := scopes[..|scopes| - 1];
    forall i | 0 <= i < |locals| ensures locals[i] in scopes && !locals[i].global {
      assert locals[i] == scopes[i];
    }
    forall id | id in ReviewScopes.SectionIds(r.article) ensures HasSection(scopes, id) {
      FlattenMember(locals, id);
    }
    forall s, id | s in scopes && id in s.sectionIds ensures HasSection(scopes, id) {
      if s.global {
        assert s == scopes[|scopes| - 1];
      }
    }
  }

  /** An article without chapters has one fresh scope, which names none. */
  lemma WholeIsPlannable(r: Reading, c: CoverageWork.Survey)
    requires r.article.sections == []
    ensures var whole := [Sealed(r, ReviewScopes.Whole(r))]; IsPlannable(r, c, whole) && whole[0].global && !whole[0].coverageBatch && whole[0].sectionIds == []
  {
    hide IsPlannable, Sealed;
    SealedAsks(r, ReviewScopes.Whole(r));
    SealedIsDigest(r, ReviewScopes.Whole(r));
    FreshIsPlannable(r, c, [Sealed(r, ReviewScopes.Whole(r))]);
  }

  /** Coverage planning for an article without chapters: only questions and the relations are left. */
  lemma PlannedForNothing(r: Reading, c: CoverageWork.Survey, scopes: seq<Scope>, groups: seq<seq<string>>, plan: seq<Scope>)
    requires CoveragePlan.IsPlan(c, scopes, groups, plan) && IsPlannable(r, c, scopes) && Identifies(r, c) && CoveragePlan.DistinctQuestions(c)
    requires c.sectionIds == [] && r.article.sections == [] && forall s | s in scopes :: s.sectionIds == []
    ensures IsPlanned(r, c, plan)
  {
    hide CoveragePlan.IsPlan, CoveragePlan.IsReady, CoveragePlan.Ids, HasSection, IsTask, IsPlannable, Identifies, HasRelations, OneFinal, RelationsLast, CoveragePlan.DistinctQuestions, AsksOnce, AsksAtMostOnce;
    PlannableIsReady(r, c, scopes);
    PlannedTasks(r, c, scopes, groups, plan);
    PlannedAsks(r, c, scopes, groups, plan);
    PlannedFinal(r, c, scopes, groups, plan);
    forall s | s in plan ensures s.sectionIds == [] {
      CoveragePlan.PlanSections(c, scopes, groups, plan, s);
    }
  }
}
