/** Lists of review tasks: what they oblige to, what makes them well formed, and how replacing a task
    by its children changes them (`splitLoopReviewAt`, `splitLoopCoverage`; internal/investigator/
    article_loop_input.go, article_loop_reference.go). */
module ReviewTasks {
  import opened Lists
  import opened ReviewMaterial
  import opened ReviewSplits
  import CoverageWork
  import CoveragePlan
  import ReviewScopes

  // ----- obligations

  ghost predicate HasSection(scopes: seq<Scope>, id: string) {
    exists s | s in scopes :: !IsRelations(s) && id in s.sectionIds
  }

  ghost predicate HasSource(scopes: seq<Scope>, id: string) {
    exists s | s in scopes :: !IsRelations(s) && id in s.sourceIds
  }

  ghost predicate HasFrame(scopes: seq<Scope>, id: string) {
    exists s | s in scopes :: !IsRelations(s) && id in s.frameIds
  }

  ghost predicate HasRelations(scopes: seq<Scope>) {
    exists s | s in scopes :: CoveragePlan.IsFinal(s)
  }

  /** The relations are judged after everything else. */
  ghost predicate RelationsLast(scopes: seq<Scope>) {
    scopes != [] && CoveragePlan.IsFinal(scopes[|scopes| - 1])
  }

  /** No chapter, original or frame to be reviewed is lost, no question changes hands, and the
      relations stay to be judged, last if they were last. */
  ghost predicate Keeps(r: Reading, before: seq<Scope>, after: seq<Scope>) {
    && (forall id | HasSection(before, id) :: HasSection(after, id))
    && (forall id | HasSource(before, id) && id in r.transcript :: HasSource(after, id))
    && (forall id | HasFrame(before, id) :: HasFrame(after, id))
    && CoveragePlan.Ids(after) == CoveragePlan.Ids(before)
    && (HasRelations(before) ==> HasRelations(after)) && (RelationsLast(before) ==> RelationsLast(after))
  }

  // ----- well-formed lists

  /** A task holds all frames of the chapters that it names. */
  ghost predicate HoldsFrames(a: Article, s: Scope) {
    forall k, id | 0 <= k < |a.sections| && a.sections[k].id in s.sectionIds && id in ContentFrames(a, a.sections[k]) :: id in s.frameIds
  }

  ghost predicate FramesWhole(a: Article, scopes: seq<Scope>) {
    forall s | s in scopes && !IsRelations(s) :: HoldsFrames(a, s)
  }

  /** Identities are digests in which everything takes part that a task answers for. */
  ghost predicate Identifies(r: Reading, c: CoverageWork.Survey) {
    && c.hash == r.hash && (forall s :: r.hash(s) != "")
    && forall s, t | r.hash(s) == r.hash(t) :: SameDuties(s, t)
  }

  ghost predicate IsDigest(r: Reading, s: Scope) {
    exists t :: s.id == r.hash(t) && SameDuties(s, t)
  }

  ghost predicate IsAsked(c: CoverageWork.Survey, id: string) {
    exists q | q in c.questions :: q.id == id
  }

  /** Full-article tasks are batches without sources of their own, local ones name no questions; a
      relations task says so. */
  ghost predicate IsTask(r: Reading, c: CoverageWork.Survey, s: Scope) {
    && IsDigest(r, s) && (s.global ==> s.coverageBatch && s.sourceIds == []) && (!s.global ==> s.coverageQuestionIds == [])
    && (CoveragePlan.IsFinal(s) ==> s.fullRelations) && forall id | id in s.coverageQuestionIds :: IsAsked(c, id)
  }

  ghost predicate OneFinal(scopes: seq<Scope>) {
    forall i, j | 0 <= i < j < |scopes| :: !CoveragePlan.IsFinal(scopes[i]) || !CoveragePlan.IsFinal(scopes[j])
  }

  ghost predicate AsksAtMostOnce(scopes: seq<Scope>) {
    forall id :: CoveragePlan.Ids(scopes)[id] <= 1
  }

  ghost predicate IsList(r: Reading, c: CoverageWork.Survey, scopes: seq<Scope>) {
    (forall s | s in scopes :: IsTask(r, c, s)) && OneFinal(scopes) && AsksAtMostOnce(scopes)
  }

  /** Every chapter that any task names has a local task. */
  ghost predicate NamesLocalChapters(scopes: seq<Scope>) {
    forall s, id | s in scopes && id in s.sectionIds :: HasSection(scopes, id)
  }

  /** A complete list of work, as the frozen plan is. */
  ghost predicate IsSound(r: Reading, c: CoverageWork.Survey, scopes: seq<Scope>) {
    IsList(r, c, scopes) && NamesLocalChapters(scopes) && HasRelations(scopes)
  }

  /** What is left of one: the relations are judged last. */
  ghost predicate IsPending(r: Reading, c: CoverageWork.Survey, scopes: seq<Scope>) {
    IsList(r, c, scopes) && FramesWhole(r.article, scopes) && (scopes != [] ==> RelationsLast(scopes))
  }

  lemma ListIsReady(r: Reading, c: CoverageWork.Survey, scopes: seq<Scope>)
    requires IsList(r, c, scopes) && Identifies(r, c)
    ensures CoveragePlan.IsReady(scopes) && CoveragePlan.IsTidy(scopes)
    ensures forall s | s in scopes && s.global :: IsRelations(s)
  {
    hide CoveragePlan.Ids, IsAsked;
    forall i | 0 <= i < |scopes| ensures IsTask(r, c, scopes[i]) && scopes[i].id != "" {
      assert scopes[i] in scopes;
    }
  }

  /** Two tasks with one identity answer for the same. */
  lemma IdsIdentify(r: Reading, c: CoverageWork.Survey, s: Scope, t: Scope)
    requires Identifies(r, c) && IsDigest(r, s) && IsDigest(r, t) && s.id == t.id
    ensures SameWork(s, t)
  {
  }

  lemma SealedIsDigest(r: Reading, s: Scope)
    ensures IsDigest(r, Sealed(r, s))
  {
    hide ContextSources, CrossChapterBlocks;
    var t := InContext(r, s).(id := "");
    assert Sealed(r, s).id == r.hash(t) && SameDuties(Sealed(r, s), t);
  }

  // ----- splitting the full-article coverage task

  function QuestionIds(questions: seq<CoverageWork.Question>): (ids: seq<string>)
    ensures |ids| == |questions|
  {
    seq(|questions|, i requires 0 <= i < |questions| => questions[i].id)
  }

  function CoverageChild(c: CoverageWork.Survey, parent: Scope, ids: seq<string>, full: bool): Scope {
    var child := EMPTY.(global := true, sectionIds := parent.sectionIds, coverageBatch := true, coverageQuestionIds := ids, fullRelations := full);
    child.(id := c.hash(child))
  }

  /** The later half keeps the relations; a task that was no batch leaves them to a third one. */
  function CoverageChildren(c: CoverageWork.Survey, parent: Scope): seq<Scope> {
    var ids := QuestionIds(CoverageWork.Questions(c, parent));
    var mid := |ids| / 2;
    [CoverageChild(c, parent, ids[..mid], false), CoverageChild(c, parent, ids[mid..], parent.fullRelations)]
    + if parent.coverageBatch then [] else [CoverageChild(c, parent, [], false)]
  }

  lemma {:induction false} ChosenQuestions(c: CoverageWork.Survey, scope: Scope, i: nat, n: nat)
    requires i < |c.questions| && n <= |c.questions| && CoveragePlan.DistinctQuestions(c)
    ensures multiset(QuestionIds(CoverageWork.QuestionsFirst(c, scope, n)))[c.questions[i].id]
      == if i < n && (!scope.coverageBatch || c.questions[i].id in scope.coverageQuestionIds) then 1 else 0
  {
    if n > 0 {
      ChosenQuestions(c, scope, i, n - 1);
      var front := CoverageWork.QuestionsFirst(c, scope, n - 1);
      var q := c.questions[n - 1];
      if !scope.coverageBatch || q.id in scope.coverageQuestionIds {
        assert QuestionIds(front + [q]) == QuestionIds(front) + [q.id];
      } else {
        assert front + [] == front;
      }
    }
  }

  lemma {:induction false} ChosenAreAsked(c: CoverageWork.Survey, scope: Scope, n: nat)
    requires n <= |c.questions|
    ensures forall id | id in QuestionIds(CoverageWork.QuestionsFirst(c, scope, n)) :: IsAsked(c, id)
  {
    if n > 0 {
      ChosenAreAsked(c, scope, n - 1);
      var front, q := CoverageWork.QuestionsFirst(c, scope, n - 1), c.questions[n - 1];
      assert q in c.questions;
      assert QuestionIds(front + [q]) == QuestionIds(front) + [q.id];
      assert front + [] == front;
    }
  }

  lemma ChildrenIds(c: CoverageWork.Survey, parent: Scope)
    ensures CoveragePlan.Ids(CoverageChildren(c, parent)) == multiset(QuestionIds(CoverageWork.Questions(c, parent)))
  {
    hide CoverageWork.QuestionsFirst, CoveragePlan.IdsFirst;
    var ids := QuestionIds(CoverageWork.Questions(c, parent));
    var mid := |ids| / 2;
    assert ids == ids[..mid] + ids[mid..];
    var first, second := CoverageChild(c, parent, ids[..mid], false), CoverageChild(c, parent, ids[mid..], parent.fullRelations);
    PairIds(first, second);
    if !parent.coverageBatch {
      CoveragePlan.IdsSnoc([first, second], CoverageChild(c, parent, [], false));
    } else {
      assert [first, second] + [] == [first, second];
    }
  }

  /** MAIN RESULT: the children of a batch share out its questions, each going to exactly one of
      them; neither is empty; and the relations stay with exactly one child. */
  lemma CoverageSplitPartitions(c: CoverageWork.Survey, parent: Scope)
    requires |CoverageWork.Questions(c, parent)| >= 2 && CoveragePlan.DistinctQuestions(c)
    ensures var children := CoverageChildren(c, parent);
      && children[0].coverageQuestionIds + children[1].coverageQuestionIds == QuestionIds(CoverageWork.Questions(c, parent))
      && children[0].coverageQuestionIds != [] && children[1].coverageQuestionIds != []
      && (forall i | 0 <= i < |c.questions| :: CoveragePlan.Ids(children)[c.questions[i].id]
            == if !parent.coverageBatch || c.questions[i].id in parent.coverageQuestionIds then 1 else 0)
      && (parent.coverageBatch ==> |children| == 2 && !children[0].fullRelations && children[1].fullRelations == parent.fullRelations)
      && (!parent.coverageBatch ==> |children| == 3 && children[2].coverageQuestionIds == [])
      && (forall s | s in children :: IsRelations(s) && s.coverageBatch && s.sectionIds == parent.sectionIds)
  {
    hide CoverageWork.QuestionsFirst, CoveragePlan.IdsFirst;
    ChildrenIds(c, parent);
    forall i | 0 <= i < |c.questions|
      ensures CoveragePlan.Ids(CoverageChildren(c, parent))[c.questions[i].id]
        == if !parent.coverageBatch || c.questions[i].id in parent.coverageQuestionIds then 1 else 0
    {
      ChosenQuestions(c, parent, i, |c.questions|);
    }
    var ids := QuestionIds(CoverageWork.Questions(c, parent));
    assert ids[..|ids| / 2] + ids[|ids| / 2..] == ids;
  }

  // ----- one split

  function RelationsOf(r: Reading, parent: Scope): Scope {
    var global := EMPTY.(global := true, sectionIds := parent.sectionIds);
    global.(id := r.hash(global))
  }

  /** What a split shares out, whatever frames and context the parent had. */
  ghost predicate Divides(r: Reading, c: CoverageWork.Survey, parent: Scope, children: seq<Scope>) {
    if IsRelations(parent) then |CoverageWork.Questions(c, parent)| >= 2 && children == CoverageChildren(c, parent)
    else
      && |children| == 2 && ConservesText(r, parent, children[0], children[1])
      && forall s | s in children :: !s.global && IsDigest(r, s)
            && s.coverageQuestionIds == if |parent.sectionIds| > 1 then [] else parent.coverageQuestionIds
  }

  ghost predicate IsSplit(r: Reading, c: CoverageWork.Survey, parent: Scope, children: seq<Scope>, tail: seq<Scope>) {
    && Divides(r, c, parent, children)
    && if IsRelations(parent) then tail == []
       else
         && Conserves(r, parent, children[0], children[1])
         && (forall s | s in children :: s.boundedContext && Work(r, s) < Work(r, parent))
         && (Distinct(ReviewScopes.SectionIds(r.article)) && !parent.global && HoldsFrames(r.article, parent) ==>
               HoldsFrames(r.article, children[0]) && HoldsFrames(r.article, children[1]))
         && tail == if parent.global then [RelationsOf(r, parent)] else []
  }

  function IndexOf(scopes: seq<Scope>, id: string): (i: nat)
    ensures i <= |scopes| && (i < |scopes| ==> scopes[i].id == id)
    ensures forall j | 0 <= j < i :: scopes[j].id != id
  {
    if scopes == [] || scopes[0].id == id then 0 else 1 + IndexOf(scopes[1..], id)
  }

  /** In the frozen plan, halves go to the end, but coverage batches take their parent's place. */
  function Replanned(plan: seq<Scope>, parent: Scope, children: seq<Scope>, tail: seq<Scope>): seq<Scope> {
    var i := IndexOf(plan, parent.id);
    if i == |plan| then plan
    else if IsRelations(parent) then plan[..i] + children + plan[i + 1..]
    else plan[..i] + plan[i + 1..] + children + tail
  }

  ghost predicate Replaces(before: seq<Scope>, i: nat, children: seq<Scope>, after: seq<Scope>) {
    i < |before| && after == before[..i] + children + before[i + 1..]
  }

  lemma ReplacedMembers(before: seq<Scope>, i: nat, children: seq<Scope>, after: seq<Scope>)
    requires Replaces(before, i, children, after)
    ensures forall s :: s in after <==> s in before[..i] || s in children || s in before[i + 1..]
    ensures forall s | s in before :: s in after || s == before[i]
    ensures forall s | s in after :: s in before || s in children
  {
    assert before == before[..i] + [before[i]] + before[i + 1..];
  }

  // ----- which questions a list names

  lemma {:induction false} IdsAppend(front: seq<Scope>, back: seq<Scope>)
    ensures CoveragePlan.Ids(front + back) == CoveragePlan.Ids(front) + CoveragePlan.Ids(back)
    decreases |back|
  {
    hide CoveragePlan.IdsFirst;
    if back == [] {
      CoveragePlan.IdsStep([], 0);
      assert front + [] == front;
    } else {
      var most, last := back[..|back| - 1], back[|back| - 1];
      IdsAppend(front, most);
      CoveragePlan.IdsSnoc(front + most, last);
      CoveragePlan.IdsSnoc(most, last);
      assert back == most + [last] && front + back == (front + most) + [last];
    }
  }

  lemma ReplacedIds(before: seq<Scope>, i: nat, children: seq<Scope>, after: seq<Scope>)
    requires Replaces(before, i, children, after)
    ensures CoveragePlan.Ids(after) + multiset(before[i].coverageQuestionIds) == CoveragePlan.Ids(before) + CoveragePlan.Ids(children)
    ensures multiset(before[i].coverageQuestionIds) <= CoveragePlan.Ids(before)
  {
    hide CoveragePlan.IdsFirst;
    var front, back := before[..i], before[i + 1..];
    IdsAppend(front + children, back);
    IdsAppend(front, children);
    CoveragePlan.IdsSnoc(front, before[i]);
    IdsAppend(front + [before[i]], back);
    assert before == front + [before[i]] + back;
  }

  lemma PairIds(a: Scope, b: Scope)
    ensures CoveragePlan.Ids([a, b]) == multiset(a.coverageQuestionIds) + multiset(b.coverageQuestionIds)
  {
    hide CoveragePlan.IdsFirst;
    CoveragePlan.IdsStep([], 0);
    CoveragePlan.IdsSnoc([], a);
    CoveragePlan.IdsSnoc([] + [a], b);
    assert [] + [a] + [b] == [a, b];
  }

  /** The questions of a task are those that it names. */
  lemma ChosenAreNamed(r: Reading, c: CoverageWork.Survey, task: Scope)
    requires IsTask(r, c, task) && task.global && CoveragePlan.DistinctQuestions(c)
    requires forall id :: multiset(task.coverageQuestionIds)[id] <= 1
    ensures multiset(QuestionIds(CoverageWork.Questions(c, task))) == multiset(task.coverageQuestionIds)
  {
    hide CoverageWork.QuestionsFirst;
    ChosenAreAsked(c, task, |c.questions|);
    var ids := QuestionIds(CoverageWork.Questions(c, task));
    forall id ensures multiset(ids)[id] == multiset(task.coverageQuestionIds)[id] {
      if IsAsked(c, id) {
        var q :| q in c.questions && q.id == id;
        var i: nat :| i < |c.questions| && c.questions[i] == q;
        ChosenQuestions(c, task, i, |c.questions|);
        assert id in multiset(task.coverageQuestionIds) <==> id in task.coverageQuestionIds;
      } else {
        assert id !in ids && id !in task.coverageQuestionIds;
      }
    }
  }

  /** A batch that names known questions once is shared out completely. */
  lemma ChildrenNameTheSame(r: Reading, c: CoverageWork.Survey, parent: Scope, children: seq<Scope>)
    requires Divides(r, c, parent, children) && IsTask(r, c, parent) && CoveragePlan.DistinctQuestions(c)
    requires forall id :: multiset(parent.coverageQuestionIds)[id] <= 1
    ensures CoveragePlan.Ids(children) == multiset(parent.coverageQuestionIds)
  {
    hide CoveragePlan.Ids, CoverageWork.QuestionsFirst, CoverageChildren, ConservesText;
    if IsRelations(parent) {
      ChildrenIds(c, parent);
      ChosenAreNamed(r, c, parent);
    } else {
      PairIds(children[0], children[1]);
      assert children == [children[0], children[1]];
      assert children[0] in children && children[1] in children;
    }
  }

  // ----- a split keeps every obligation

  lemma SplitTasks(r: Reading, c: CoverageWork.Survey, parent: Scope, children: seq<Scope>)
    requires Divides(r, c, parent, children) && IsTask(r, c, parent) && Identifies(r, c)
    ensures |children| == 2 && forall s | s in children :: IsTask(r, c, s)
    ensures !CoveragePlan.IsFinal(children[0]) && (CoveragePlan.IsFinal(children[1]) <==> CoveragePlan.IsFinal(parent))
  {
    hide CoverageWork.QuestionsFirst, ConservesText;
    if IsRelations(parent) {
      ChosenAreAsked(c, parent, |c.questions|);
      var ids := QuestionIds(CoverageWork.Questions(c, parent));
      var mid := |ids| / 2;
      HalvesHold(ids, mid);
      ChildIsTask(r, c, parent, ids[..mid], false);
      ChildIsTask(r, c, parent, ids[mid..], parent.fullRelations);
    } else {
      assert children[0] in children && children[1] in children;
    }
  }

  lemma ChildIsTask(r: Reading, c: CoverageWork.Survey, parent: Scope, ids: seq<string>, full: bool)
    requires Identifies(r, c) && ids != [] && forall id | id in ids :: IsAsked(c, id)
    ensures IsTask(r, c, CoverageChild(c, parent, ids, full))
  {
    var child := EMPTY.(global := true, sectionIds := parent.sectionIds, coverageBatch := true, coverageQuestionIds := ids, fullRelations := full);
    assert CoverageChild(c, parent, ids, full).id == r.hash(child) && SameDuties(CoverageChild(c, parent, ids, full), child);
  }

  lemma HalvesHold(ids: seq<string>, mid: nat)
    requires mid <= |ids|
    ensures forall id :: id in ids <==> id in ids[..mid] || id in ids[mid..]
  {
    assert ids == ids[..mid] + ids[mid..];
  }

  /** Where a position came from when position `i` was replaced by two. */
  function Origin(i: nat, x: int): int {
    if x <= i then x else x - 1
  }

  lemma SplitKeepsOneFinal(r: Reading, c: CoverageWork.Survey, before: seq<Scope>, i: nat, children: seq<Scope>, after: seq<Scope>)
    requires Replaces(before, i, children, after) && Divides(r, c, before[i], children) && IsTask(r, c, before[i]) && Identifies(r, c)
    requires OneFinal(before)
    ensures OneFinal(after) && (RelationsLast(before) ==> RelationsLast(after))
  {
    hide Divides, IsTask, CoveragePlan.IsFinal, Identifies;
    SplitTasks(r, c, before[i], children);
    forall x | 0 <= x < |after| ensures CoveragePlan.IsFinal(after[x]) ==> CoveragePlan.IsFinal(before[Origin(i, x)]) && x != i {
      assert x == i || x == i + 1 || after[x] == before[Origin(i, x)];
      assert x == i ==> after[x] == children[0];
      assert x == i + 1 ==> after[x] == children[1];
    }
    forall x, y | 0 <= x < y < |after| ensures !CoveragePlan.IsFinal(after[x]) || !CoveragePlan.IsFinal(after[y]) {
      assert CoveragePlan.IsFinal(after[x]) ==> x != i;
      assert Origin(i, x) < Origin(i, y) || x == i;
    }
    if RelationsLast(before) {
      assert if i == |before| - 1 then after[|after| - 1] == children[1] else after[|after| - 1] == before[|before| - 1];
    }
  }

  lemma SplitKeepsIds(r: Reading, c: CoverageWork.Survey, before: seq<Scope>, i: nat, children: seq<Scope>, after: seq<Scope>)
    requires Replaces(before, i, children, after) && Divides(r, c, before[i], children) && IsTask(r, c, before[i])
    requires AsksAtMostOnce(before) && CoveragePlan.DistinctQuestions(c)
    ensures CoveragePlan.Ids(after) == CoveragePlan.Ids(before)
  {
    hide CoveragePlan.Ids, Divides, IsTask;
    ReplacedIds(before, i, children, after);
    forall id ensures multiset(before[i].coverageQuestionIds)[id] <= 1 {
      assert CoveragePlan.Ids(before)[id] <= 1;
    }
    ChildrenNameTheSame(r, c, before[i], children);
    forall id ensures CoveragePlan.Ids(after)[id] == CoveragePlan.Ids(before)[id] {
      assert (CoveragePlan.Ids(after) + multiset(before[i].coverageQuestionIds))[id] == (CoveragePlan.Ids(before) + CoveragePlan.Ids(children))[id];
    }
  }

  lemma SplitIsList(r: Reading, c: CoverageWork.Survey, before: seq<Scope>, i: nat, children: seq<Scope>, after: seq<Scope>)
    requires Replaces(before, i, children, after) && Divides(r, c, before[i], children) && IsList(r, c, before)
    requires Identifies(r, c) && CoveragePlan.DistinctQuestions(c)
    ensures IsList(r, c, after) && CoveragePlan.Ids(after) == CoveragePlan.Ids(before) && (RelationsLast(before) ==> RelationsLast(after))
  {
    hide CoveragePlan.Ids, Divides, IsTask, Replaces, RelationsLast, Identifies, CoveragePlan.DistinctQuestions;
    ReplacedParent(before, i, children, after);
    SplitTasks(r, c, before[i], children);
    ReplacedMembers(before, i, children, after);
    SplitKeepsOneFinal(r, c, before, i, children, after);
    SplitKeepsIds(r, c, before, i, children, after);
  }

  lemma ReplacedParent(before: seq<Scope>, i: nat, children: seq<Scope>, after: seq<Scope>)
    requires Replaces(before, i, children, after)
    ensures i < |before| && before[i] in before
  {
  }

  lemma SplitKeepsText(r: Reading, c: CoverageWork.Survey, before: seq<Scope>, i: nat, children: seq<Scope>, after: seq<Scope>)
    requires Replaces(before, i, children, after) && Divides(r, c, before[i], children)
    ensures forall id | HasSection(before, id) :: HasSection(after, id)
    ensures forall id | HasSource(before, id) && id in r.transcript :: HasSource(after, id)
    ensures !IsRelations(before[i]) ==> children[0] in after && children[1] in after && !IsRelations(children[0]) && !IsRelations(children[1])
  {
    hide CoverageWork.QuestionsFirst, CoverageChildren, IsDigest;
    ReplacedMembers(before, i, children, after);
    if !IsRelations(before[i]) {
      assert children[0] in children && children[1] in children;
    }
  }

  lemma SplitKeepsFrames(r: Reading, c: CoverageWork.Survey, before: seq<Scope>, i: nat, children: seq<Scope>, after: seq<Scope>)
    requires Replaces(before, i, children, after) && IsSplit(r, c, before[i], children, [])
    ensures forall id | HasFrame(before, id) :: HasFrame(after, id)
  {
    hide Work, Divides, HoldsFrames;
    ReplacedMembers(before, i, children, after);
    if !IsRelations(before[i]) {
      SplitKeepsText(r, c, before, i, children, after);
    }
  }

  lemma SplitKeepsRelations(r: Reading, c: CoverageWork.Survey, before: seq<Scope>, i: nat, children: seq<Scope>, after: seq<Scope>)
    requires Replaces(before, i, children, after) && Divides(r, c, before[i], children) && IsTask(r, c, before[i]) && Identifies(r, c)
    requires HasRelations(before)
    ensures HasRelations(after)
  {
    hide Divides, IsTask, CoveragePlan.IsFinal, Identifies;
    SplitTasks(r, c, before[i], children);
    ReplacedMembers(before, i, children, after);
    assert children[1] in children;
  }

  /** MAIN RESULT: replacing a task by its children loses no chapter, original, frame or question,
      and the relations stay to be judged. */
  lemma SplitKeeps(r: Reading, c: CoverageWork.Survey, before: seq<Scope>, i: nat, children: seq<Scope>, after: seq<Scope>)
    requires Replaces(before, i, children, after) && IsSplit(r, c, before[i], children, []) && IsList(r, c, before)
    requires Identifies(r, c) && CoveragePlan.DistinctQuestions(c)
    ensures Keeps(r, before, after)
  {
    hide CoveragePlan.Ids, Divides, IsTask, HasSection, HasSource, HasFrame, HasRelations, RelationsLast, Work, Conserves, HoldsFrames, Identifies, OneFinal, AsksAtMostOnce;
    assert before[i] in before;
    SplitKeepsText(r, c, before, i, children, after);
    SplitKeepsFrames(r, c, before, i, children, after);
    SplitIsList(r, c, before, i, children, after);
    if HasRelations(before) {
      SplitKeepsRelations(r, c, before, i, children, after);
    }
  }

  lemma SplitNamesLocalChapters(r: Reading, c: CoverageWork.Survey, before: seq<Scope>, i: nat, children: seq<Scope>, after: seq<Scope>)
    requires Replaces(before, i, children, after) && Divides(r, c, before[i], children) && NamesLocalChapters(before)
    ensures NamesLocalChapters(after)
  {
    hide CoverageWork.QuestionsFirst, HasSource, ConservesText, IsDigest;
    ReplacedMembers(before, i, children, after);
    SplitKeepsText(r, c, before, i, children, after);
    forall s, id | s in after && id in s.sectionIds ensures HasSection(after, id) {
      if s in before {
        assert HasSection(before, id);
      } else if IsRelations(before[i]) {
        assert before[i] in before && id in before[i].sectionIds;
        assert HasSection(before, id);
      } else {
        assert !IsRelations(s);
      }
    }
  }

  lemma SplitFramesWhole(r: Reading, c: CoverageWork.Survey, before: seq<Scope>, i: nat, children: seq<Scope>, after: seq<Scope>)
    requires Replaces(before, i, children, after) && IsSplit(r, c, before[i], children, []) && IsTask(r, c, before[i])
    requires Distinct(ReviewScopes.SectionIds(r.article)) && FramesWhole(r.article, before)
    ensures FramesWhole(r.article, after)
  {
    hide HoldsFrames, Work, ConservesText, CoverageWork.QuestionsFirst, IsDigest;
    ReplacedMembers(before, i, children, after);
    assert before[i] in before;
  }

  lemma SplitIsSound(r: Reading, c: CoverageWork.Survey, before: seq<Scope>, i: nat, children: seq<Scope>, after: seq<Scope>)
    requires Replaces(before, i, children, after) && Divides(r, c, before[i], children) && IsSound(r, c, before)
    requires Identifies(r, c) && CoveragePlan.DistinctQuestions(c)
    ensures IsSound(r, c, after)
  {
    hide Divides, IsTask, OneFinal, AsksAtMostOnce, NamesLocalChapters, HasRelations, Identifies, CoveragePlan.DistinctQuestions;
    assert before[i] in before;
    SplitIsList(r, c, before, i, children, after);
    SplitNamesLocalChapters(r, c, before, i, children, after);
    SplitKeepsRelations(r, c, before, i, children, after);
  }

  lemma KeepsAll(r: Reading, scopes: seq<Scope>)
    ensures Keeps(r, scopes, scopes)
  {
    hide HasSection, HasSource, HasFrame, CoveragePlan.Ids;
  }

  lemma KeepsTransitive(r: Reading, a: seq<Scope>, b: seq<Scope>, d: seq<Scope>)
    requires Keeps(r, a, b) && Keeps(r, b, d)
    ensures Keeps(r, a, d)
  {
    hide HasSection, HasSource, HasFrame, CoveragePlan.Ids, HasRelations, RelationsLast;
  }

  // ----- the same split in the frozen plan

  lemma {:induction false} SameChosen(c: CoverageWork.Survey, s: Scope, t: Scope, n: nat)
    requires SameDuties(s, t) && n <= |c.questions|
    ensures CoverageWork.QuestionsFirst(c, s, n) == CoverageWork.QuestionsFirst(c, t, n)
  {
    if n > 0 {
      SameChosen(c, s, t, n - 1);
    }
  }

  lemma DividesAlike(r: Reading, c: CoverageWork.Survey, s: Scope, t: Scope, children: seq<Scope>)
    requires SameDuties(s, t) && Divides(r, c, s, children)
    ensures Divides(r, c, t, children)
  {
    hide CoverageWork.QuestionsFirst, IsDigest;
    SameChosen(c, s, t, |c.questions|);
  }

  lemma MovedIds(front: seq<Scope>, mid: seq<Scope>, back: seq<Scope>)
    ensures CoveragePlan.Ids(front + back + mid) == CoveragePlan.Ids(front + mid + back)
  {
    hide CoveragePlan.Ids;
    IdsAppend(front + mid, back);
    IdsAppend(front, mid);
    IdsAppend(front + back, mid);
    IdsAppend(front, back);
    forall id ensures CoveragePlan.Ids(front + back + mid)[id] == CoveragePlan.Ids(front + mid + back)[id] {
    }
  }

  lemma MovedOneFinal(front: seq<Scope>, mid: seq<Scope>, back: seq<Scope>)
    requires OneFinal(front + mid + back)
    ensures OneFinal(front + back + mid)
  {
    hide CoveragePlan.IsFinal;
    var before, after := front + mid + back, front + back + mid;
    forall i | 0 <= i < |after| ensures after[i] == before[Moved(|front|, |mid|, |back|, i)] {
    }
    forall i, j | 0 <= i < j < |after| ensures !CoveragePlan.IsFinal(after[i]) || !CoveragePlan.IsFinal(after[j]) {
      var x, y := Moved(|front|, |mid|, |back|, i), Moved(|front|, |mid|, |back|, j);
      assert x != y && 0 <= x < |before| && 0 <= y < |before|;
      assert x < y ==> !CoveragePlan.IsFinal(before[x]) || !CoveragePlan.IsFinal(before[y]);
    }
  }

  /** Moving the middle of a list to its end. */
  lemma MovedIsSound(r: Reading, c: CoverageWork.Survey, front: seq<Scope>, mid: seq<Scope>, back: seq<Scope>)
    requires IsSound(r, c, front + mid + back)
    ensures IsSound(r, c, front + back + mid) && CoveragePlan.Ids(front + back + mid) == CoveragePlan.Ids(front + mid + back)
    ensures forall s :: s in front + back + mid <==> s in front + mid + back
  {
    hide CoveragePlan.Ids, IsTask, OneFinal, NamesLocalChapters, HasRelations;
    var before, after := front + mid + back, front + back + mid;
    MovedIds(front, mid, back);
    MovedOneFinal(front, mid, back);
    forall s ensures s in after <==> s in before {
    }
    SameLocalChapters(before, after);
    SameRelations(before, after);
  }

  function Moved(front: nat, mid: nat, back: nat, i: int): int {
    if i < front then i else if i < front + back then i + mid else i - back
  }

  lemma SameLocalChapters(before: seq<Scope>, after: seq<Scope>)
    requires NamesLocalChapters(before) && forall s :: s in after <==> s in before
    ensures NamesLocalChapters(after)
  {
    forall s, id | s in after && id in s.sectionIds ensures HasSection(after, id) {
      assert HasSection(before, id);
    }
  }

  lemma SameRelations(before: seq<Scope>, after: seq<Scope>)
    requires HasRelations(before) && forall s :: s in after <==> s in before
    ensures HasRelations(after)
  {
  }

  lemma SameSections(before: seq<Scope>, after: seq<Scope>)
    requires forall s :: s in after <==> s in before
    ensures forall id :: HasSection(before, id) <==> HasSection(after, id)
  {
  }

  lemma ReplannedIsSound(r: Reading, c: CoverageWork.Survey, plan: seq<Scope>, parent: Scope, children: seq<Scope>)
    requires IsSound(r, c, plan) && IsTask(r, c, parent) && Divides(r, c, parent, children)
    requires Identifies(r, c) && CoveragePlan.DistinctQuestions(c)
    ensures var after := Replanned(plan, parent, children, []);
      && IsSound(r, c, after) && CoveragePlan.Ids(after) == CoveragePlan.Ids(plan)
      && forall id | HasSection(plan, id) :: HasSection(after, id)
  {
    hide IsSound, IsDigest, Divides, CoveragePlan.Ids, HasSection, IndexOf, Identifies, CoveragePlan.DistinctQuestions, CoveragePlan.IsFinal;
    var i := IndexOf(plan, parent.id);
    if i < |plan| {
      var inPlace := plan[..i] + children + plan[i + 1..];
      assert plan[i] in plan;
      PlannedTask(r, c, plan, plan[i]);
      IdsIdentify(r, c, plan[i], parent);
      DividesAlike(r, c, parent, plan[i], children);
      SplitIsSound(r, c, plan, i, children, inPlace);
      SoundIsList(r, c, plan);
      SplitIsList(r, c, plan, i, children, inPlace);
      SplitKeepsText(r, c, plan, i, children, inPlace);
      if !IsRelations(parent) {
        MovedIsSound(r, c, plan[..i], children, plan[i + 1..]);
        var after := plan[..i] + plan[i + 1..] + children;
        SameSections(inPlace, after);
        assert after + [] == after;
      }
    }
  }

  lemma PlannedTask(r: Reading, c: CoverageWork.Survey, plan: seq<Scope>, s: Scope)
    requires IsSound(r, c, plan) && s in plan
    ensures IsTask(r, c, s)
  {
    hide IsTask;
  }

  lemma SoundIsList(r: Reading, c: CoverageWork.Survey, plan: seq<Scope>)
    requires IsSound(r, c, plan)
    ensures IsList(r, c, plan)
  {
    hide IsList;
  }
}
