/** The pending review tasks beside the frozen plan that they come from: what a split and a refresh
    for questions found later do to both (`splitLoopReviewAt`, `refreshLoopCoverageWork`;
    internal/investigator/article_loop_input.go, article_loop_work.go). */
module ReviewWork {
  import opened Lists
  import opened ReviewMaterial
  import opened ReviewTasks
  import opened ReviewPlans
  import CoverageWork
  import CoveragePlan
  import ReviewScopes

  datatype Backlog = Backlog(scopes: seq<Scope>, plan: seq<Scope>)

  /** While a candidate is reviewed: the plan names its chapters, and what is pending comes from it. */
  ghost predicate IsWork(r: Reading, c: CoverageWork.Survey, w: Backlog) {
    && CanPlan(r, c, w.plan) && w.plan != [] && Distinct(c.sectionIds) && (forall id | id in c.sectionIds :: HasSection(w.plan, id))
    && IsPending(r, c, w.scopes) && CoveragePlan.Ids(w.scopes) <= CoveragePlan.Ids(w.plan)
  }

  /** No obligation of the pending tasks is lost, and a question becomes pending exactly when it is
      added to the plan. */
  ghost predicate Continues(r: Reading, c: CoverageWork.Survey, before: Backlog, after: Backlog) {
    && IsWork(r, c, after) && (before.scopes != [] ==> after.scopes != [])
    && (forall id | HasSection(before.scopes, id) :: HasSection(after.scopes, id))
    && (forall id | HasSource(before.scopes, id) && id in r.transcript :: HasSource(after.scopes, id))
    && CoveragePlan.Ids(after.scopes) + CoveragePlan.Ids(before.plan) == CoveragePlan.Ids(before.scopes) + CoveragePlan.Ids(after.plan)
  }

  ghost predicate HasLocal(scopes: seq<Scope>) {
    exists s | s in scopes :: !s.global
  }

  /** Before a full-article task is handed out, the plan asks every question. */
  ghost predicate IsReadied(r: Reading, c: CoverageWork.Survey, before: Backlog, after: Backlog) {
    Continues(r, c, before, after) && (HasLocal(after.scopes) || AsksOnce(c, after.plan))
  }

  lemma ContinuesAll(r: Reading, c: CoverageWork.Survey, w: Backlog)
    requires IsWork(r, c, w)
    ensures Continues(r, c, w, w)
  {
    hide IsWork, HasSection, HasSource, CoveragePlan.Ids;
  }

  /** Refreshes and splits follow each other until a task fits; a refresh comes last. */
  lemma ReadiedAfter(r: Reading, c: CoverageWork.Survey, a: Backlog, b: Backlog, d: Backlog)
    requires Continues(r, c, a, b) && IsReadied(r, c, b, d)
    ensures IsReadied(r, c, a, d)
  {
    hide IsWork, HasSection, HasSource, CoveragePlan.Ids, AsksOnce;
    forall id ensures (CoveragePlan.Ids(d.scopes) + CoveragePlan.Ids(a.plan))[id] == (CoveragePlan.Ids(a.scopes) + CoveragePlan.Ids(d.plan))[id] {
      assert (CoveragePlan.Ids(b.scopes) + CoveragePlan.Ids(a.plan))[id] == (CoveragePlan.Ids(a.scopes) + CoveragePlan.Ids(b.plan))[id];
      assert (CoveragePlan.Ids(d.scopes) + CoveragePlan.Ids(b.plan))[id] == (CoveragePlan.Ids(b.scopes) + CoveragePlan.Ids(d.plan))[id];
    }
  }

  // ----- a split

  function AfterSplit(w: Backlog, i: nat, children: seq<Scope>): Backlog
    requires i < |w.scopes|
  {
    Backlog(w.scopes[..i] + children + w.scopes[i + 1..], Replanned(w.plan, w.scopes[i], children, []))
  }

  /** MAIN RESULT: a split of a pending task loses nothing, in the pending list and in the plan. */
  lemma SplitContinues(r: Reading, c: CoverageWork.Survey, w: Backlog, i: nat, children: seq<Scope>)
    requires IsWork(r, c, w) && i < |w.scopes| && IsSplit(r, c, w.scopes[i], children, [])
    ensures Continues(r, c, w, AfterSplit(w, i, children))
  {
    hide IsSplit, IsTask, Replanned, HasSection, HasSource, HasFrame, FramesWhole, IsSound, CoveragePlan.Ids, RelationsLast, HasRelations, Identifies, CoveragePlan.DistinctQuestions, OneFinal, AsksAtMostOnce;
    var after, task := AfterSplit(w, i, children), w.scopes[i];
    assert task in w.scopes;
    SplitDivides(r, c, task, children);
    SplitIsList(r, c, w.scopes, i, children, after.scopes);
    SplitKeeps(r, c, w.scopes, i, children, after.scopes);
    SplitFramesWhole(r, c, w.scopes, i, children, after.scopes);
    ReplannedIsSound(r, c, w.plan, task, children);
    SoundIsNotEmpty(r, c, after.plan);
  }

  lemma SplitDivides(r: Reading, c: CoverageWork.Survey, parent: Scope, children: seq<Scope>)
    requires IsSplit(r, c, parent, children, [])
    ensures Divides(r, c, parent, children)
  {
    hide Divides;
  }

  lemma SoundIsNotEmpty(r: Reading, c: CoverageWork.Survey, plan: seq<Scope>)
    requires IsSound(r, c, plan)
    ensures plan != []
  {
    hide IsList;
  }

  // ----- questions found later

  ghost predicate NoNewQuestion(c: CoverageWork.Survey, plan: seq<Scope>) {
    forall q | q in c.questions :: exists s | s in plan :: q.id in s.coverageQuestionIds
  }

  /** The tasks of the new plan that the old one does not know; the relations task is not one. */
  function FreshFirst(planned: seq<Scope>, plan: seq<Scope>, n: nat): seq<Scope>
    requires n <= |planned|
  {
    if n == 0 then []
    else
      var front, s := FreshFirst(planned, plan, n - 1), planned[n - 1];
      if !s.global || s.fullRelations || s.coverageQuestionIds == [] || exists t | t in plan :: t.id == s.id then front
      else front + [s]
  }

  /** The position of the pending relations task. */
  function RelationsIndex(scopes: seq<Scope>): (i: nat)
    ensures i <= |scopes| && (i < |scopes| ==> scopes[i].global && scopes[i].fullRelations)
    ensures forall j | 0 <= j < i :: !scopes[j].global || !scopes[j].fullRelations
  {
    if scopes == [] || (scopes[0].global && scopes[0].fullRelations) then 0 else 1 + RelationsIndex(scopes[1..])
  }

  function Inserted(scopes: seq<Scope>, added: seq<Scope>): seq<Scope> {
    var at := RelationsIndex(scopes);
    if added == [] then scopes else scopes[..at] + added + scopes[at..]
  }

  lemma RelationsAt(scopes: seq<Scope>, i: nat)
    requires i < |scopes| && scopes[i].global && scopes[i].fullRelations
    requires forall j | 0 <= j < i :: !scopes[j].global || !scopes[j].fullRelations
    ensures RelationsIndex(scopes) == i
  {
  }

  lemma NothingInserted(start: seq<Scope>)
    ensures Inserted(start, []) == start
  {
  }

  lemma {:induction false} FreshIsNoRelations(planned: seq<Scope>, plan: seq<Scope>, n: nat)
    requires n <= |planned|
    ensures forall t | t in FreshFirst(planned, plan, n) :: !t.fullRelations
  {
    if n > 0 {
      FreshIsNoRelations(planned, plan, n - 1);
    }
  }

  lemma InsertedIndex(start: seq<Scope>, added: seq<Scope>)
    requires forall t | t in added :: !t.fullRelations
    ensures var first := RelationsIndex(start);
      RelationsIndex(Inserted(start, added)) == if first == |start| then |Inserted(start, added)| else first + |added|
  {
    var first, now := RelationsIndex(start), Inserted(start, added);
    if added != [] {
      forall j | 0 <= j < first + |added| ensures !now[j].global || !now[j].fullRelations {
        if j < first {
          assert now[j] == start[j];
        } else {
          assert now[j] == added[j - first] && added[j - first] in added;
        }
      }
      if first < |start| {
        assert now[first + |added|] == start[first];
        RelationsAt(now, first + |added|);
      }
    }
  }

  lemma InsertedLength(start: seq<Scope>, added: seq<Scope>)
    ensures |Inserted(start, added)| == |start| + |added|
  {
  }

  lemma InsertNext(start: seq<Scope>, added: seq<Scope>, s: Scope)
    requires RelationsIndex(Inserted(start, added)) < |Inserted(start, added)| && forall t | t in added :: !t.fullRelations
    ensures var now, at := Inserted(start, added), RelationsIndex(Inserted(start, added));
      now[..at] + [s] + now[at..] == Inserted(start, added + [s])
  {
    hide RelationsIndex;
    InsertedIndex(start, added);
    var first, now := RelationsIndex(start), Inserted(start, added);
    if added == [] {
      assert added + [s] == [s];
    } else {
      assert now[..first + |added|] == start[..first] + added && now[first + |added|..] == start[first..];
      assert start[..first] + added + [s] + start[first..] == start[..first] + (added + [s]) + start[first..];
    }
  }

  lemma OtherQuestionsOtherId(r: Reading, c: CoverageWork.Survey, s: Scope, group: seq<string>)
    requires IsDigest(r, s) && Identifies(r, c) && s.coverageQuestionIds != group
    ensures s.id != CoveragePlan.SealedBatch(c, CoveragePlan.Batch(c, group)).id
  {
    hide CoverageWork.CoverageSources;
  }

  lemma FreshBatch(r: Reading, c: CoverageWork.Survey, plan: seq<Scope>, group: seq<string>)
    requires IsSound(r, c, plan) && Identifies(r, c) && exists id | id in group :: id !in CoveragePlan.AssignedFirst(plan, |plan|)
    ensures forall s | s in plan :: s.id != CoveragePlan.SealedBatch(c, CoveragePlan.Batch(c, group)).id
  {
    hide CoveragePlan.SealedBatch, CoveragePlan.IsFinal, CoveragePlan.IsReady, NamesLocalChapters, HasRelations, OneFinal, AsksAtMostOnce, IsAsked, Identifies, IsDigest;
    var id :| id in group && id !in CoveragePlan.AssignedFirst(plan, |plan|);
    ListIsReady(r, c, plan);
    forall s | s in plan ensures s.id != CoveragePlan.SealedBatch(c, CoveragePlan.Batch(c, group)).id {
      var k :| 0 <= k < |plan| && plan[k] == s;
      if s.coverageQuestionIds == group {
        NamedIsAssigned(plan, k, |plan|, id);
      } else {
        OtherQuestionsOtherId(r, c, s, group);
      }
    }
  }

  lemma {:induction false} NamedIsAssigned(plan: seq<Scope>, k: nat, n: nat, id: string)
    requires k < n <= |plan| && CoveragePlan.IsReady(plan) && id in plan[k].coverageQuestionIds
    ensures id in CoveragePlan.AssignedFirst(plan, n)
  {
    hide CoveragePlan.IsFinal;
    if k < n - 1 {
      NamedIsAssigned(plan, k, n - 1, id);
    }
  }

  ghost predicate IsFresh(s: Scope, plan: seq<Scope>) {
    s.global && !s.fullRelations && s.coverageQuestionIds != [] && forall t | t in plan :: t.id != s.id
  }

  lemma NewBatchIsFresh(r: Reading, c: CoverageWork.Survey, plan: seq<Scope>, groups: seq<seq<string>>, i: nat)
    requires CoveragePlan.IsGrouping(c, groups, CoveragePlan.OpenQuestions(c, plan)) && i < |groups|
    requires IsSound(r, c, plan) && Identifies(r, c)
    ensures IsFresh(CoveragePlan.SealAll(c, groups)[i], plan)
  {
    hide CoverageWork.QuestionWork, CoveragePlan.SealedBatch, IsSound, Identifies, CoveragePlan.AssignedFirst;
    var group := groups[i];
    assert CoveragePlan.Fits(c, group);
    GroupInside(groups, i);
    OpenIsOpen(c.questions, CoveragePlan.AssignedFirst(plan, |plan|), |c.questions|);
    assert group[0] in group;
    FreshBatch(r, c, plan, group);
    CoveragePlan.SealedQuestions(c, CoveragePlan.Batch(c, group));
  }

  lemma {:induction false} FreshAre(planned: seq<Scope>, plan: seq<Scope>, kept: seq<Scope>, batches: seq<Scope>, final: Scope, n: nat)
    requires n <= |planned| && planned == kept + batches + [final] && CoveragePlan.IsFinal(final)
    requires (forall s | s in kept :: s in plan) && forall i | 0 <= i < |batches| :: IsFresh(batches[i], plan)
    ensures FreshFirst(planned, plan, n)
      == if n <= |kept| then [] else if n <= |kept| + |batches| then batches[..n - |kept|] else batches
  {
    if n > 0 {
      FreshAre(planned, plan, kept, batches, final, n - 1);
      if n <= |kept| {
        assert planned[n - 1] == kept[n - 1] && kept[n - 1] in kept;
      } else if n <= |kept| + |batches| {
        assert planned[n - 1] == batches[n - 1 - |kept|];
        TakeOneMore(batches, n - |kept|);
      }
    }
  }

  /** MAIN RESULT: the tasks that a refresh inserts are exactly the new batches, so every question
      found later gets its task before the relations are judged. */
  lemma RefreshInsertsNewBatches(r: Reading, c: CoverageWork.Survey, plan: seq<Scope>, groups: seq<seq<string>>, planned: seq<Scope>)
    requires IsSound(r, c, plan) && Identifies(r, c) && CoveragePlan.IsPlan(c, plan, groups, planned)
    ensures FreshFirst(planned, plan, |planned|) == CoveragePlan.SealAll(c, groups)
    ensures Flatten(groups) == CoveragePlan.OpenQuestions(c, plan)
  {
    hide CoveragePlan.KeptFirst, CoveragePlan.FinalFirst, CoveragePlan.OpenQuestions, CoveragePlan.SealedBatch, CoveragePlan.IsReady, IsSound, Identifies;
    var kept, batches, final := CoveragePlan.KeptFirst(plan, |plan|), CoveragePlan.SealAll(c, groups), CoveragePlan.FinalFirst(plan, |plan|);
    SoundHasFinal(r, c, plan);
    CoveragePlan.FinalIsFound(plan, |plan|);
    CoveragePlan.FinalIsIdentified(plan, |plan|);
    CoveragePlan.KeptAreSorted(plan, |plan|);
    assert planned == kept + batches + [final];
    forall i | 0 <= i < |batches| ensures IsFresh(batches[i], plan) {
      NewBatchIsFresh(r, c, plan, groups, i);
    }
    FreshAre(planned, plan, kept, batches, final, |planned|);
    assert batches[..|batches|] == batches;
  }

  lemma SoundHasFinal(r: Reading, c: CoverageWork.Survey, plan: seq<Scope>)
    requires IsSound(r, c, plan) && Identifies(r, c)
    ensures CoveragePlan.IsReady(plan) && exists i :: 0 <= i < |plan| && CoveragePlan.IsFinal(plan[i])
    ensures exists s | s in plan :: CoveragePlan.IsFinal(s)
  {
    hide IsList, CoveragePlan.IsFinal, Identifies;
    ListIsReady(r, c, plan);
    var s :| s in plan && CoveragePlan.IsFinal(s);
    var i :| 0 <= i < |plan| && plan[i] == s;
  }

  /** A pending list that is not empty has its relations task, so a refresh always finds it. */
  lemma RelationsArePending(r: Reading, c: CoverageWork.Survey, scopes: seq<Scope>)
    requires IsPending(r, c, scopes) && scopes != []
    ensures RelationsIndex(scopes) < |scopes|
  {
    hide IsDigest, IsAsked, FramesWhole, AsksAtMostOnce, OneFinal;
    assert scopes[|scopes| - 1] in scopes;
  }

  lemma InsertedIds(scopes: seq<Scope>, added: seq<Scope>)
    ensures CoveragePlan.Ids(Inserted(scopes, added)) == CoveragePlan.Ids(scopes) + CoveragePlan.Ids(added)
  {
    hide CoveragePlan.Ids, RelationsIndex;
    var at := RelationsIndex(scopes);
    if added == [] {
      NoIds();
    } else {
      IdsAppend(scopes[..at] + added, scopes[at..]);
      IdsAppend(scopes[..at], added);
      IdsAppend(scopes[..at], scopes[at..]);
      assert scopes[..at] + scopes[at..] == scopes;
      forall id ensures CoveragePlan.Ids(Inserted(scopes, added))[id] == (CoveragePlan.Ids(scopes) + CoveragePlan.Ids(added))[id] {
      }
    }
  }

  lemma NoIds()
    ensures CoveragePlan.Ids([]) == multiset{}
  {
  }

  lemma InsertedMembers(scopes: seq<Scope>, added: seq<Scope>)
    ensures forall s :: s in Inserted(scopes, added) <==> s in scopes || s in added
  {
    hide RelationsIndex;
    var at := RelationsIndex(scopes);
    assert scopes == scopes[..at] + scopes[at..];
  }

  lemma OnlyLastIsFinal(scopes: seq<Scope>)
    requires scopes != [] && forall s | s in scopes[..|scopes| - 1] :: !CoveragePlan.IsFinal(s)
    ensures OneFinal(scopes)
  {
    hide CoveragePlan.IsFinal;
    forall i | 0 <= i < |scopes| - 1 ensures !CoveragePlan.IsFinal(scopes[i]) {
      assert scopes[..|scopes| - 1][i] == scopes[i];
    }
  }

  lemma OthersAreNotFinal(scopes: seq<Scope>)
    requires OneFinal(scopes) && RelationsLast(scopes)
    ensures forall s | s in scopes[..|scopes| - 1] :: !CoveragePlan.IsFinal(s)
  {
    hide CoveragePlan.IsFinal;
  }

  lemma InsertedFinals(scopes: seq<Scope>, added: seq<Scope>)
    requires OneFinal(scopes) && RelationsLast(scopes) && forall s | s in added :: !CoveragePlan.IsFinal(s)
    requires RelationsIndex(scopes) < |scopes|
    ensures OneFinal(Inserted(scopes, added)) && RelationsLast(Inserted(scopes, added))
  {
    hide RelationsIndex, CoveragePlan.IsFinal, OneFinal;
    var at, now, last := RelationsIndex(scopes), Inserted(scopes, added), |scopes| - 1;
    if added != [] {
      OthersAreNotFinal(scopes);
      assert now[..|now| - 1] == scopes[..at] + added + scopes[at..last];
      assert scopes[..last] == scopes[..at] + scopes[at..last];
      OnlyLastIsFinal(now);
    }
  }

  lemma BatchesAre(r: Reading, c: CoverageWork.Survey, plan: seq<Scope>, groups: seq<seq<string>>)
    requires CoveragePlan.IsGrouping(c, groups, CoveragePlan.OpenQuestions(c, plan)) && Identifies(r, c)
    ensures var added := CoveragePlan.SealAll(c, groups);
      && (forall s | s in added :: IsTask(r, c, s) && IsRelations(s) && !CoveragePlan.IsFinal(s))
      && CoveragePlan.Ids(added) == multiset(CoveragePlan.OpenQuestions(c, plan))
  {
    hide CoveragePlan.SealedBatch, CoveragePlan.IsGrouping, CoveragePlan.OpenQuestions, CoveragePlan.Ids, Identifies, IsDigest, IsAsked;
    var added := CoveragePlan.SealAll(c, groups);
    forall i | 0 <= i < |added| ensures IsTask(r, c, added[i]) && IsRelations(added[i]) && !CoveragePlan.IsFinal(added[i]) {
      NewBatchIsTask(r, c, plan, groups, i);
      CoveragePlan.SealedQuestions(c, CoveragePlan.Batch(c, groups[i]));
    }
    CoveragePlan.IdsOfGroups(c, [], groups);
    NoIds();
    assert [] + added == added;
    GroupingFlattens(c, groups, CoveragePlan.OpenQuestions(c, plan));
  }

  lemma GroupingFlattens(c: CoverageWork.Survey, groups: seq<seq<string>>, ids: seq<string>)
    requires CoveragePlan.IsGrouping(c, groups, ids)
    ensures Flatten(groups) == ids
  {
    hide CoveragePlan.Fits, CoveragePlan.ClosedFull;
  }

  function AfterRefresh(w: Backlog, planned: seq<Scope>): Backlog {
    Backlog(Inserted(w.scopes, FreshFirst(planned, w.plan, |planned|)), planned)
  }

  lemma RefreshedPlan(r: Reading, c: CoverageWork.Survey, w: Backlog, groups: seq<seq<string>>, planned: seq<Scope>)
    requires IsWork(r, c, w) && CoveragePlan.IsPlan(c, w.plan, groups, planned)
    ensures CanPlan(r, c, planned) && planned != [] && AsksOnce(c, planned) && forall id | id in c.sectionIds :: HasSection(planned, id)
    ensures CoveragePlan.Ids(planned) == CoveragePlan.Ids(w.plan) + multiset(CoveragePlan.OpenQuestions(c, w.plan))
  {
    hide CoveragePlan.IsPlan, IsSound, HasSection, HasSource, AsksOnce, IsPlannable, RelationsLast, CoveragePlan.Ids, IsPending, FramesWhole, CoveragePlan.OpenQuestions, CoveragePlan.DistinctQuestions, Identifies;
    SoundIsPlannable(r, c, w.plan);
    PlannedIsPlan(r, c, w.plan, groups, planned);
    PlannedAsks(r, c, w.plan, groups, planned);
    SoundIsNotEmpty(r, c, planned);
  }

  lemma RefreshedScopes(r: Reading, c: CoverageWork.Survey, w: Backlog, groups: seq<seq<string>>, planned: seq<Scope>)
    requires IsWork(r, c, w) && w.scopes != [] && CoveragePlan.IsPlan(c, w.plan, groups, planned)
    ensures var after := AfterRefresh(w, planned).scopes;
      && after != [] && (forall s | s in after :: IsTask(r, c, s)) && OneFinal(after) && RelationsLast(after) && FramesWhole(r.article, after)
      && (forall s | s in w.scopes :: s in after)
      && CoveragePlan.Ids(after) == CoveragePlan.Ids(w.scopes) + multiset(CoveragePlan.OpenQuestions(c, w.plan))
  {
    hide IsSound, HasSection, IsTask, RelationsLast, CoveragePlan.Ids, CoveragePlan.OpenQuestions, CoveragePlan.DistinctQuestions, Identifies, Inserted, RelationsIndex, FreshFirst, OneFinal, HoldsFrames, CoveragePlan.IsGrouping, AsksAtMostOnce, CoveragePlan.Assembled;
    var added := CoveragePlan.SealAll(c, groups);
    RefreshInsertsNewBatches(r, c, w.plan, groups, planned);
    BatchesAre(r, c, w.plan, groups);
    RelationsArePending(r, c, w.scopes);
    InsertedMembers(w.scopes, added);
    InsertedIds(w.scopes, added);
    InsertedFinals(w.scopes, added);
    assert w.scopes[0] in w.scopes;
  }

  /** MAIN RESULT: a refresh loses nothing, and afterwards the plan asks every question once. */
  lemma RefreshContinues(r: Reading, c: CoverageWork.Survey, w: Backlog, groups: seq<seq<string>>, planned: seq<Scope>)
    requires IsWork(r, c, w) && w.scopes != [] && CoveragePlan.IsPlan(c, w.plan, groups, planned)
    ensures IsReadied(r, c, w, AfterRefresh(w, planned))
  {
    hide CoveragePlan.IsPlan, CanPlan, IsTask, RelationsLast, CoveragePlan.Ids, CoveragePlan.OpenQuestions, Inserted, FreshFirst, OneFinal, FramesWhole, AsksOnce;
    RefreshedPlan(r, c, w, groups, planned);
    RefreshedScopes(r, c, w, groups, planned);
    var after := AfterRefresh(w, planned);
    forall id ensures CoveragePlan.Ids(after.scopes)[id] <= CoveragePlan.Ids(planned)[id] <= 1 {
      PlannedOnce(r, c, planned, id);
    }
    MoreTasks(w.scopes, after.scopes);
    forall id ensures (CoveragePlan.Ids(after.scopes) + CoveragePlan.Ids(w.plan))[id] == (CoveragePlan.Ids(w.scopes) + CoveragePlan.Ids(planned))[id] {
    }
  }

  lemma PlannedOnce(r: Reading, c: CoverageWork.Survey, plan: seq<Scope>, id: string)
    requires CanPlan(r, c, plan) && plan != []
    ensures CoveragePlan.Ids(plan)[id] <= 1
  {
    hide CoveragePlan.Ids, IsTask, OneFinal;
  }

  lemma MoreTasks(before: seq<Scope>, after: seq<Scope>)
    requires forall s | s in before :: s in after
    ensures forall id | HasSection(before, id) :: HasSection(after, id)
    ensures forall id | HasSource(before, id) :: HasSource(after, id)
  {
  }

  lemma {:induction false} NamedIsCounted(scopes: seq<Scope>, k: nat, n: nat, id: string)
    requires k < n <= |scopes| && id in scopes[k].coverageQuestionIds
    ensures CoveragePlan.IdsFirst(scopes, n)[id] > 0
  {
    if k < n - 1 {
      NamedIsCounted(scopes, k, n - 1, id);
    }
  }

  /** Without a new question the plan asks everything already. */
  lemma NothingNewIsReadied(r: Reading, c: CoverageWork.Survey, w: Backlog)
    requires IsWork(r, c, w) && (HasLocal(w.scopes) || NoNewQuestion(c, w.plan))
    ensures IsReadied(r, c, w, w)
  {
    hide IsWork, CoveragePlan.IdsFirst;
    ContinuesAll(r, c, w);
    if !HasLocal(w.scopes) {
      forall i | 0 <= i < |c.questions| ensures CoveragePlan.Ids(w.plan)[c.questions[i].id] == 1 {
        assert c.questions[i] in c.questions;
        var s :| s in w.plan && c.questions[i].id in s.coverageQuestionIds;
        var k :| 0 <= k < |w.plan| && w.plan[k] == s;
        NamedIsCounted(w.plan, k, |w.plan|, c.questions[i].id);
        WorkOnce(r, c, w, c.questions[i].id);
      }
    }
  }

  lemma WorkOnce(r: Reading, c: CoverageWork.Survey, w: Backlog, id: string)
    requires IsWork(r, c, w)
    ensures CoveragePlan.Ids(w.plan)[id] <= 1
  {
    hide CanPlan, CoveragePlan.Ids, IsPending;
    PlannedOnce(r, c, w.plan, id);
  }
}
