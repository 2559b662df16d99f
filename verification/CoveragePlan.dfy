/** Assigning the open coverage questions to review tasks (`planLoopCoverageWork`,
    internal/investigator/article_loop_work.go). */
module CoveragePlan {
  import opened Lists
  import opened Text
  import opened Wrappers
  import opened ReviewMaterial
  import opened CoverageWork

  /** An established batch of questions; its findings are still being worked on. */
  predicate IsBatch(s: Scope) {
    s.global && s.coverageBatch && s.coverageQuestionIds != [] && !s.fullRelations
  }

  /** The task that judges the relations over the full article. */
  predicate IsFinal(s: Scope) {
    s.global && s.coverageBatch && (s.coverageQuestionIds == [] || s.fullRelations)
  }

  // ----- what the scopes already settle

  function KeptFirst(scopes: seq<Scope>, n: nat): seq<Scope>
    requires n <= |scopes|
  {
    if n == 0 then []
    else
      var front, s := KeptFirst(scopes, n - 1), scopes[n - 1];
      if !s.global || IsBatch(s) then front + [s] else front
  }

  function FinalFirst(scopes: seq<Scope>, n: nat): Scope
    requires n <= |scopes|
  {
    if n == 0 then EMPTY else if IsFinal(scopes[n - 1]) then scopes[n - 1] else FinalFirst(scopes, n - 1)
  }

  function AssignedFirst(scopes: seq<Scope>, n: nat): set<string>
    requires n <= |scopes|
  {
    if n == 0 then {}
    else
      var front, s := AssignedFirst(scopes, n - 1), scopes[n - 1];
      if s.global && s.coverageBatch then front + Elements(s.coverageQuestionIds) else front
  }

  function OpenFirst(questions: seq<Question>, settled: set<string>, n: nat): seq<string>
    requires n <= |questions|
  {
    if n == 0 then []
    else
      var front := OpenFirst(questions, settled, n - 1);
      if questions[n - 1].id in settled then front else front + [questions[n - 1].id]
  }

  /** The questions that no scope answers yet. */
  function OpenQuestions(c: Survey, scopes: seq<Scope>): seq<string> {
    OpenFirst(c.questions, AssignedFirst(scopes, |scopes|), |c.questions|)
  }

  // ----- batches

  function Batch(c: Survey, ids: seq<string>): Scope {
    EMPTY.(global := true, sectionIds := c.sectionIds, coverageBatch := true, coverageQuestionIds := ids)
  }

  function SealedBatch(c: Survey, s: Scope): Scope {
    s.(id := c.hash(s), contextSourceIds := CoverageSources(c, s.(id := c.hash(s))))
  }

  predicate Fits(c: Survey, ids: seq<string>) {
    0 < |ids| <= DECISION_UNITS && QuestionWork(c, Batch(c, ids)) <= WORK_RUNES
  }

  function SealAll(c: Survey, groups: seq<seq<string>>): (out: seq<Scope>)
    ensures |out| == |groups|
  {
    seq(|groups|, i requires 0 <= i < |groups| => SealedBatch(c, Batch(c, groups[i])))
  }

  /** A batch is closed only where one more question would not fit. */
  ghost predicate ClosedFull(c: Survey, group: seq<string>, next: seq<string>) {
    next != [] && !Fits(c, group + [next[0]])
  }

  ghost predicate IsGrouping(c: Survey, groups: seq<seq<string>>, ids: seq<string>) {
    && Flatten(groups) == ids
    && (forall g | g in groups :: Fits(c, g))
    && (forall i, j | 0 <= i < j < |groups| && j == i + 1 :: ClosedFull(c, groups[i], groups[j]))
  }

  function FinalTask(c: Survey): Scope {
    SealedBatch(c, Batch(c, []).(fullRelations := true))
  }

  /** Without a relations task, the last batch takes the relations over. */
  function Converted(c: Survey, s: Scope): Scope {
    SealedBatch(c, s.(id := "", contextSourceIds := [], fullRelations := true))
  }

  function Assembled(c: Survey, out: seq<Scope>, final: Scope): seq<Scope> {
    if final.id != "" then out + [final]
    else if out != [] && out[|out| - 1].global then out[..|out| - 1] + [Converted(c, out[|out| - 1])]
    else out + [FinalTask(c)]
  }

  ghost predicate IsPlan(c: Survey, scopes: seq<Scope>, groups: seq<seq<string>>, plan: seq<Scope>) {
    && IsGrouping(c, groups, OpenQuestions(c, scopes))
    && plan == Assembled(c, KeptFirst(scopes, |scopes|) + SealAll(c, groups), FinalFirst(scopes, |scopes|))
  }

  /** The source's first loop. */
  method Sort(scopes: seq<Scope>) returns (kept: seq<Scope>, settled: set<string>, final: Scope)
    ensures kept == KeptFirst(scopes, |scopes|) && settled == AssignedFirst(scopes, |scopes|)
    ensures final == FinalFirst(scopes, |scopes|)
  {
    kept, settled, final := [], {}, EMPTY;
    for i := 0 to |scopes|
      invariant kept == KeptFirst(scopes, i) && settled == AssignedFirst(scopes, i) && final == FinalFirst(scopes, i)
    {
      var scope := scopes[i];
      if !scope.global {
        kept := kept + [scope];
        continue;
      }
      if scope.coverageBatch && scope.coverageQuestionIds != [] {
        settled := settled + Elements(scope.coverageQuestionIds);
        if scope.fullRelations {
          final := scope;
        } else {
          kept := kept + [scope];
        }
      } else if scope.coverageBatch {
        assert Elements(scope.coverageQuestionIds) == {};
        final := scope;
      }
    }
  }

  // ----- filling batches

  /** Closed groups, the batch being filled, and the questions they hold so far. */
  ghost predicate IsOpenGrouping(c: Survey, groups: seq<seq<string>>, batch: seq<string>, ids: seq<string>) {
    && IsGrouping(c, groups, Flatten(groups)) && Flatten(groups) + batch == ids
    && if batch == [] then groups == [] else Fits(c, batch) && (groups != [] ==> ClosedFull(c, groups[|groups| - 1], batch))
  }

  lemma NoGroups(c: Survey)
    ensures IsOpenGrouping(c, [], [], [])
  {
  }

  lemma GroupsGrow(c: Survey, groups: seq<seq<string>>, batch: seq<string>)
    requires IsGrouping(c, groups, Flatten(groups)) && Fits(c, batch)
    requires groups != [] ==> ClosedFull(c, groups[|groups| - 1], batch)
    ensures IsGrouping(c, groups + [batch], Flatten(groups) + batch)
  {
    hide QuestionWork, Fits, ClosedFull, Flatten;
    FlattenSnoc(groups, batch);
    var all := groups + [batch];
    forall i, j | 0 <= i < j < |all| && j == i + 1 ensures ClosedFull(c, all[i], all[j]) {
      assert all[i] == groups[i] && (j < |groups| ==> all[j] == groups[j]);
    }
  }

  lemma FillMore(c: Survey, groups: seq<seq<string>>, batch: seq<string>, done: seq<string>, id: string)
    requires IsOpenGrouping(c, groups, batch, done) && Fits(c, batch + [id])
    ensures IsOpenGrouping(c, groups, batch + [id], done + [id])
  {
    hide QuestionWork, Fits, IsGrouping;
    assert (Flatten(groups) + batch) + [id] == Flatten(groups) + (batch + [id]);
    assert batch != [] ==> (batch + [id])[0] == batch[0];
  }

  lemma FillNext(c: Survey, groups: seq<seq<string>>, batch: seq<string>, done: seq<string>, id: string)
    requires IsOpenGrouping(c, groups, batch, done) && batch != [] && !Fits(c, batch + [id]) && Fits(c, [id])
    ensures IsOpenGrouping(c, groups + [batch], [id], done + [id])
  {
    hide QuestionWork, Fits, IsGrouping;
    GroupsGrow(c, groups, batch);
    FlattenSnoc(groups, batch);
    assert ClosedFull(c, batch, [id]);
  }

  lemma SealOneMore(c: Survey, groups: seq<seq<string>>, batch: seq<string>)
    ensures SealAll(c, groups + [batch]) == SealAll(c, groups) + [SealedBatch(c, Batch(c, batch))]
  {
    hide SealedBatch;
  }

  ghost predicate AllFit(c: Survey, ids: seq<string>) {
    forall id | id in ids :: Fits(c, [id])
  }

  /** The source's loop over the questions: open ones fill the current batch, and a full batch is
      flushed. A question that does not even fit alone stops the plan. */
  method FillBatches(c: Survey, settled: set<string>, kept: seq<Scope>) returns (out: Option<seq<Scope>>, ghost groups: seq<seq<string>>)
    ensures out.None? <==> !AllFit(c, OpenFirst(c.questions, settled, |c.questions|))
    ensures out.Some? ==> out.value == kept + SealAll(c, groups) && IsGrouping(c, groups, OpenFirst(c.questions, settled, |c.questions|))
  {
    hide QuestionWork, SealedBatch, IsGrouping, ClosedFull, IsOpenGrouping, SealAll, Fits, AllFit;
    var scopes := kept;
    groups := [];
    NoGroups(c);
    SealNone(c, kept);
    NothingFits(c);
    var batch: seq<string> := [];
    for i := 0 to |c.questions|
      invariant scopes == kept + SealAll(c, groups)
      invariant IsOpenGrouping(c, groups, batch, OpenFirst(c.questions, settled, i))
      invariant AllFit(c, OpenFirst(c.questions, settled, i))
    {
      var id := c.questions[i].id;
      if id in settled {
        continue;
      }
      ghost var done, closing, before := OpenFirst(c.questions, settled, i), batch, groups;
      var next := batch + [id];
      FitsIs(c, next);
      FitsIs(c, [id]);
      var work := CoverageWorkOf(c, Batch(c, next));
      var full := batch != [] && (|next| > DECISION_UNITS || work > WORK_RUNES);
      if full {
        SealOneMore(c, groups, batch);
        groups, scopes := groups + [batch], scopes + [SealedBatch(c, Batch(c, batch))];
        next := [id];
      }
      work := CoverageWorkOf(c, Batch(c, next));
      if work > WORK_RUNES {
        StaysOpen(c.questions, settled, i, |c.questions|);
        assert next == [id];
        DoesNotFit(c, OpenFirst(c.questions, settled, |c.questions|), id);
        return None, [];
      }
      if full {
        FillNext(c, before, closing, done, id);
      } else {
        FillMore(c, before, closing, done, id);
        FitsAlone(c, closing, id);
      }
      AllFitMore(c, done, id);
      batch := next;
    }
    OpenGroupingEnds(c, groups, batch, OpenFirst(c.questions, settled, |c.questions|));
    if batch != [] {
      SealOneMore(c, groups, batch);
      groups, scopes := groups + [batch], scopes + [SealedBatch(c, Batch(c, batch))];
    }
    out := Some(scopes);
  }

  lemma FitsIs(c: Survey, ids: seq<string>)
    ensures Fits(c, ids) <==> 0 < |ids| <= DECISION_UNITS && QuestionWork(c, Batch(c, ids)) <= WORK_RUNES
  {
    hide QuestionWork;
  }

  lemma NothingFits(c: Survey)
    ensures AllFit(c, [])
  {
  }

  lemma DoesNotFit(c: Survey, ids: seq<string>, id: string)
    requires id in ids && !Fits(c, [id])
    ensures !AllFit(c, ids)
  {
    hide Fits;
  }

  lemma AllFitMore(c: Survey, ids: seq<string>, id: string)
    requires AllFit(c, ids) && Fits(c, [id])
    ensures AllFit(c, ids + [id])
  {
    hide Fits;
  }

  method PlanCoverage(c: Survey, scopes: seq<Scope>) returns (plan: Option<seq<Scope>>, ghost groups: seq<seq<string>>)
    ensures plan.None? <==> !AllFit(c, OpenQuestions(c, scopes))
    ensures plan.Some? ==> IsPlan(c, scopes, groups, plan.value)
  {
    hide SealedBatch, IsGrouping, SealAll, KeptFirst, FinalFirst, AssignedFirst, AllFit;
    var kept, settled, final := Sort(scopes);
    var filled;
    filled, groups := FillBatches(c, settled, kept);
    if filled.None? {
      return None, [];
    }
    var out := filled.value;
    if final.id == "" && |out| > 0 && out[|out| - 1].global {
      final := out[|out| - 1];
      out := out[..|out| - 1];
      final := SealedBatch(c, final.(id := "", contextSourceIds := [], fullRelations := true));
    } else if final.id == "" {
      final := SealedBatch(c, Batch(c, []).(fullRelations := true));
    }
    plan := Some(out + [final]);
  }

  lemma SealNone(c: Survey, kept: seq<Scope>)
    ensures kept + SealAll(c, []) == kept
  {
    hide SealedBatch;
  }

  lemma OpenGroupingEnds(c: Survey, groups: seq<seq<string>>, batch: seq<string>, ids: seq<string>)
    requires IsOpenGrouping(c, groups, batch, ids)
    ensures IsGrouping(c, if batch == [] then groups else groups + [batch], ids)
  {
    hide QuestionWork, Fits, IsGrouping, ClosedFull;
    if batch != [] {
      GroupsGrow(c, groups, batch);
    } else {
      assert Flatten(groups) + [] == Flatten(groups);
    }
  }

  lemma {:induction false} StaysOpen(questions: seq<Question>, settled: set<string>, i: nat, n: nat)
    requires i < n <= |questions| && questions[i].id !in settled
    ensures questions[i].id in OpenFirst(questions, settled, n)
  {
    if i < n - 1 {
      StaysOpen(questions, settled, i, n - 1);
    }
  }

  // ----- more questions are more work

  lemma {:induction false} TopicAppend(questions: seq<Question>, q: Question, n: nat)
    requires n <= |questions|
    ensures TopicRunes(questions + [q], n) == TopicRunes(questions, n)
  {
    if n > 0 {
      TopicAppend(questions, q, n - 1);
    }
  }

  lemma {:induction false} RefsAppend(questions: seq<Question>, q: Question, n: nat)
    requires n <= |questions|
    ensures RefsOf(questions + [q], n) == RefsOf(questions, n)
  {
    if n > 0 {
      RefsAppend(questions, q, n - 1);
    }
  }

  lemma OneMoreQuestion(questions: seq<Question>, q: Question)
    ensures TopicRunes(questions + [q], |questions| + 1) == TopicRunes(questions, |questions|) + TopicRunes([q], 1)
    ensures RefsOf(questions + [q], |questions| + 1) == RefsOf(questions, |questions|) + RefsOf([q], 1)
  {
    TopicAppend(questions, q, |questions|);
    RefsAppend(questions, q, |questions|);
    assert TopicRunes([q], 0) == 0 && RefsOf([q], 0) == {};
  }

  lemma {:induction false} QuestionsMonotone(c: Survey, s: Scope, t: Scope, n: nat)
    requires n <= |c.questions| && s.coverageBatch && t.coverageBatch
    requires Elements(s.coverageQuestionIds) <= Elements(t.coverageQuestionIds)
    ensures var a, b := QuestionsFirst(c, s, n), QuestionsFirst(c, t, n);
      TopicRunes(a, |a|) <= TopicRunes(b, |b|) && RefsOf(a, |a|) <= RefsOf(b, |b|)
  {
    hide TopicRunes, RefsOf;
    if n > 0 {
      QuestionsMonotone(c, s, t, n - 1);
      var a, b, q := QuestionsFirst(c, s, n - 1), QuestionsFirst(c, t, n - 1), c.questions[n - 1];
      assert q.id in s.coverageQuestionIds ==> q.id in Elements(s.coverageQuestionIds);
      assert q.id in Elements(t.coverageQuestionIds) ==> q.id in t.coverageQuestionIds;
      OneMoreQuestion(a, q);
      OneMoreQuestion(b, q);
      assert a + [] == a && b + [] == b;
    } else {
      NoQuestions();
    }
  }

  lemma NoQuestions()
    ensures TopicRunes([], 0) == 0 && RefsOf([], 0) == {}
  {
  }

  lemma {:induction false} NeededMonotone(transcript: seq<Original>, refs: set<string>, refs': set<string>, k: nat)
    requires k <= |transcript| && refs <= refs'
    ensures Elements(NeededFirst(transcript, refs, k)) <= Elements(NeededFirst(transcript, refs', k))
  {
    hide Alias, IsNeeded;
    if k > 0 {
      NeededMonotone(transcript, refs, refs', k - 1);
      NeededMore(refs, refs', |transcript|, k - 1);
      var a, b := NeededFirst(transcript, refs, k - 1), NeededFirst(transcript, refs', k - 1);
      forall x | x in NeededFirst(transcript, refs, k) ensures x in NeededFirst(transcript, refs', k) {
        assert x in a ==> x in Elements(a);
        assert x in Elements(b) ==> x in b;
      }
    }
  }

  lemma NeededMore(refs: set<string>, refs': set<string>, n: nat, i: nat)
    requires refs <= refs'
    ensures IsNeeded(refs, n, i) ==> IsNeeded(refs', n, i)
  {
    hide Alias;
  }

  lemma {:induction false} TextMonotone(transcript: seq<Original>, ids: set<string>, ids': set<string>, n: nat)
    requires n <= |transcript| && ids <= ids'
    ensures TextRunes(transcript, ids, n) <= TextRunes(transcript, ids', n)
  {
    if n > 0 {
      TextMonotone(transcript, ids, ids', n - 1);
    }
  }

  lemma WorkMonotone(c: Survey, ids: seq<string>, more: seq<string>)
    requires Elements(ids) <= Elements(more)
    ensures QuestionWork(c, Batch(c, ids)) <= QuestionWork(c, Batch(c, more))
  {
    hide QuestionsFirst, NeededFirst, TextRunes, TopicRunes, RefsOf;
    var s, t := Batch(c, ids), Batch(c, more);
    QuestionsMonotone(c, s, t, |c.questions|);
    var a, b := Questions(c, s), Questions(c, t);
    NeededMonotone(c.transcript, RefsOf(a, |a|), RefsOf(b, |b|), |c.transcript|);
    TextMonotone(c.transcript, Elements(CoverageSources(c, s)) + Elements([]), Elements(CoverageSources(c, t)) + Elements([]), |c.transcript|);
  }

  lemma FitsAlone(c: Survey, batch: seq<string>, id: string)
    requires Fits(c, batch + [id])
    ensures Fits(c, [id])
  {
    hide QuestionWork;
    WorkMonotone(c, [id], batch + [id]);
  }

  /** The context that sealing adds was counted before. */
  lemma SealingKeepsWork(c: Survey, s: Scope)
    requires s.contextSourceIds == []
    ensures QuestionWork(c, SealedBatch(c, s)) == QuestionWork(c, s)
  {
    hide NeededFirst, TextRunes, TopicRunes, RefsOf;
    SameQuestions(c, s, SealedBatch(c, s), |c.questions|);
    SameQuestions(c, s, s.(id := c.hash(s)), |c.questions|);
    assert Elements(CoverageSources(c, s)) + Elements(CoverageSources(c, s)) == Elements(CoverageSources(c, s)) + Elements([]);
  }

  lemma {:induction false} SameQuestions(c: Survey, s: Scope, t: Scope, n: nat)
    requires n <= |c.questions| && s.coverageBatch == t.coverageBatch && s.coverageQuestionIds == t.coverageQuestionIds
    ensures QuestionsFirst(c, s, n) == QuestionsFirst(c, t, n)
  {
    if n > 0 {
      SameQuestions(c, s, t, n - 1);
    }
  }

  // ----- what a plan guarantees

  /** How often the first `n` scopes name each question. */
  ghost function IdsFirst(scopes: seq<Scope>, n: nat): multiset<string>
    requires n <= |scopes|
  {
    if n == 0 then multiset{} else IdsFirst(scopes, n - 1) + multiset(scopes[n - 1].coverageQuestionIds)
  }

  ghost function Ids(scopes: seq<Scope>): multiset<string> {
    IdsFirst(scopes, |scopes|)
  }

  lemma {:induction false} IdsPrefix(a: seq<Scope>, b: seq<Scope>, n: nat)
    requires n <= |a| && n <= |b| && a[..n] == b[..n]
    ensures IdsFirst(a, n) == IdsFirst(b, n)
  {
    if n > 0 {
      assert a[..n - 1] == a[..n][..n - 1] == b[..n - 1];
      assert a[n - 1] == a[..n][n - 1] == b[n - 1];
      IdsPrefix(a, b, n - 1);
    }
  }

  lemma IdsSnoc(scopes: seq<Scope>, s: Scope)
    ensures Ids(scopes + [s]) == Ids(scopes) + multiset(s.coverageQuestionIds)
  {
    IdsPrefix(scopes + [s], scopes, |scopes|);
  }

  lemma {:induction false} IdsOfGroups(c: Survey, kept: seq<Scope>, groups: seq<seq<string>>)
    ensures Ids(kept + SealAll(c, groups)) == Ids(kept) + multiset(Flatten(groups))
    decreases |groups|
  {
    hide IdsFirst, SealedBatch, Flatten;
    if groups == [] {
      SealNone(c, kept);
      assert Flatten<string>([]) == [] by { FlattenNothing(); }
    } else {
      var front, last := groups[..|groups| - 1], groups[|groups| - 1];
      assert groups == front + [last];
      IdsOfGroups(c, kept, front);
      SealOneMore(c, front, last);
      FlattenSnoc(front, last);
      var sealed := SealedBatch(c, Batch(c, last));
      SealedQuestions(c, Batch(c, last));
      IdsSnoc(kept + SealAll(c, front), sealed);
      assert kept + SealAll(c, groups) == (kept + SealAll(c, front)) + [sealed];
    }
  }

  lemma FlattenNothing()
    ensures Flatten<string>([]) == []
  {
  }

  lemma SealedQuestions(c: Survey, s: Scope)
    ensures SealedBatch(c, s).coverageQuestionIds == s.coverageQuestionIds && SealedBatch(c, s).global == s.global
    ensures SealedBatch(c, s).coverageBatch == s.coverageBatch && SealedBatch(c, s).fullRelations == s.fullRelations
    ensures SealedBatch(c, s).sourceIds == s.sourceIds
  {
    hide CoverageSources;
  }

  /** The scopes that planning starts from: only coverage batches name questions, and there is at
      most one relations task, which has an identity. */
  ghost predicate IsReady(scopes: seq<Scope>) {
    && (forall i, j | 0 <= i < j < |scopes| :: !IsFinal(scopes[i]) || !IsFinal(scopes[j]))
    && (forall i | 0 <= i < |scopes| :: (!scopes[i].global || !scopes[i].coverageBatch) ==> scopes[i].coverageQuestionIds == [])
    && (forall i | 0 <= i < |scopes| && IsFinal(scopes[i]) :: scopes[i].id != "")
  }

  lemma {:induction false} NoFinalBefore(scopes: seq<Scope>, n: nat)
    requires n <= |scopes| && forall i | 0 <= i < n :: !IsFinal(scopes[i])
    ensures FinalFirst(scopes, n) == EMPTY
  {
    if n > 0 {
      NoFinalBefore(scopes, n - 1);
    }
  }

  lemma IdsStep(scopes: seq<Scope>, n: nat)
    requires n <= |scopes|
    ensures Ids([]) == multiset{}
    ensures IdsFirst(scopes, n) == if n == 0 then multiset{} else IdsFirst(scopes, n - 1) + multiset(scopes[n - 1].coverageQuestionIds)
  {
  }

  lemma {:induction false} SortConserves(scopes: seq<Scope>, n: nat)
    requires n <= |scopes| && IsReady(scopes)
    ensures Ids(KeptFirst(scopes, n)) + multiset(FinalFirst(scopes, n).coverageQuestionIds) == IdsFirst(scopes, n)
  {
    hide IdsFirst;
    IdsStep(scopes, n);
    if n > 0 {
      SortConserves(scopes, n - 1);
      var s := scopes[n - 1];
      IdsSnoc(KeptFirst(scopes, n - 1), s);
      if IsFinal(s) {
        NoFinalBefore(scopes, n - 1);
      }
    }
  }

  lemma {:induction false} SettledAreNamed(scopes: seq<Scope>, n: nat)
    requires n <= |scopes| && IsReady(scopes)
    ensures forall x :: x in AssignedFirst(scopes, n) <==> x in IdsFirst(scopes, n)
  {
    if n > 0 {
      SettledAreNamed(scopes, n - 1);
    }
  }

  lemma AssembledIds(c: Survey, out: seq<Scope>, final: Scope)
    requires final.id == "" ==> final.coverageQuestionIds == []
    ensures Ids(Assembled(c, out, final)) == Ids(out) + multiset(final.coverageQuestionIds)
  {
    hide SealedBatch, IdsFirst;
    if final.id != "" {
      IdsSnoc(out, final);
    } else if out != [] && out[|out| - 1].global {
      var front, last := out[..|out| - 1], out[|out| - 1];
      assert out == front + [last];
      IdsSnoc(front, last);
      IdsSnoc(front, Converted(c, last));
      SealedQuestions(c, last.(id := "", contextSourceIds := [], fullRelations := true));
    } else {
      IdsSnoc(out, FinalTask(c));
      SealedQuestions(c, Batch(c, []).(fullRelations := true));
    }
  }

  ghost predicate DistinctQuestions(c: Survey) {
    forall i, j | 0 <= i < j < |c.questions| :: c.questions[i].id != c.questions[j].id
  }

  lemma {:induction false} OpenOnce(questions: seq<Question>, settled: set<string>, i: nat, n: nat)
    requires i < |questions| && n <= |questions|
    requires forall k, j | 0 <= k < j < |questions| :: questions[k].id != questions[j].id
    ensures multiset(OpenFirst(questions, settled, n))[questions[i].id] == if i < n && questions[i].id !in settled then 1 else 0
  {
    if n > 0 {
      OpenOnce(questions, settled, i, n - 1);
    }
  }

  /** MAIN RESULT: planning neither drops nor repeats a question. What the scopes named before they
      name afterwards, the open questions are added, and so every question has exactly one task. */
  lemma EveryQuestionHasOneTask(c: Survey, scopes: seq<Scope>, groups: seq<seq<string>>, plan: seq<Scope>)
    requires IsPlan(c, scopes, groups, plan) && IsReady(scopes)
    ensures Ids(plan) == Ids(scopes) + multiset(OpenQuestions(c, scopes))
    ensures DistinctQuestions(c) && (forall i | 0 <= i < |c.questions| :: Ids(scopes)[c.questions[i].id] <= 1)
      ==> forall i | 0 <= i < |c.questions| :: Ids(plan)[c.questions[i].id] == 1
  {
    hide IdsFirst, SealedBatch, SealAll, Assembled, KeptFirst, AssignedFirst;
    var n := |scopes|;
    var kept, final := KeptFirst(scopes, n), FinalFirst(scopes, n);
    SortConserves(scopes, n);
    IdsOfGroups(c, kept, groups);
    FinalIsIdentified(scopes, n);
    AssembledIds(c, kept + SealAll(c, groups), final);
    if DistinctQuestions(c) && forall i | 0 <= i < |c.questions| :: Ids(scopes)[c.questions[i].id] <= 1 {
      forall i | 0 <= i < |c.questions| ensures Ids(plan)[c.questions[i].id] == 1 {
        SettledOrOpen(c, scopes, i);
      }
    }
  }

  lemma SettledOrOpen(c: Survey, scopes: seq<Scope>, i: nat)
    requires IsReady(scopes) && DistinctQuestions(c) && i < |c.questions| && Ids(scopes)[c.questions[i].id] <= 1
    ensures (Ids(scopes) + multiset(OpenQuestions(c, scopes)))[c.questions[i].id] == 1
  {
    hide IdsFirst, AssignedFirst, OpenFirst;
    SettledAreNamed(scopes, |scopes|);
    OpenOnce(c.questions, AssignedFirst(scopes, |scopes|), i, |c.questions|);
  }

  lemma {:induction false} FinalIsIdentified(scopes: seq<Scope>, n: nat)
    requires n <= |scopes| && IsReady(scopes)
    ensures FinalFirst(scopes, n) == EMPTY || (IsFinal(FinalFirst(scopes, n)) && FinalFirst(scopes, n).id != "" && FinalFirst(scopes, n) in scopes)
  {
    if n > 0 {
      FinalIsIdentified(scopes, n - 1);
    }
  }

  /** No relations task exists and no question is open: the last established batch becomes one. */
  ghost predicate TakesOver(c: Survey, scopes: seq<Scope>) {
    var kept := KeptFirst(scopes, |scopes|);
    && FinalFirst(scopes, |scopes|).id == "" && OpenQuestions(c, scopes) == []
    && kept != [] && kept[|kept| - 1].global
  }

  lemma GroupsHoldQuestions(c: Survey, groups: seq<seq<string>>, ids: seq<string>)
    requires IsGrouping(c, groups, ids) && groups != []
    ensures ids != []
  {
    hide QuestionWork;
    assert Fits(c, groups[|groups| - 1]);
  }

  lemma NoQuestionsNoGroups(c: Survey, groups: seq<seq<string>>)
    requires IsGrouping(c, groups, [])
    ensures groups == []
  {
    hide IsGrouping;
    if groups != [] {
      GroupsHoldQuestions(c, groups, []);
    }
  }

  lemma {:induction false} KeptAreSorted(scopes: seq<Scope>, n: nat)
    requires n <= |scopes|
    ensures forall s | s in KeptFirst(scopes, n) :: s in scopes && (!s.global || IsBatch(s))
  {
    if n > 0 {
      KeptAreSorted(scopes, n - 1);
    }
  }

  /** Everything kept stays as it is, in its order, exactly when no batch takes the relations over. */
  lemma EstablishedScopesStay(c: Survey, scopes: seq<Scope>, groups: seq<seq<string>>, plan: seq<Scope>)
    requires IsPlan(c, scopes, groups, plan) && IsReady(scopes)
    ensures KeptFirst(scopes, |scopes|) <= plan <==> !TakesOver(c, scopes)
    ensures TakesOver(c, scopes) ==> var kept := KeptFirst(scopes, |scopes|);
      plan == kept[..|kept| - 1] + [Converted(c, kept[|kept| - 1])]
  {
    hide SealedBatch, KeptFirst, FinalFirst, OpenQuestions, SealAll;
    var kept, batches := KeptFirst(scopes, |scopes|), SealAll(c, groups);
    FinalIsIdentified(scopes, |scopes|);
    if OpenQuestions(c, scopes) == [] {
      NoQuestionsNoGroups(c, groups);
      SealNone(c, kept);
    }
    if TakesOver(c, scopes) {
      var last := kept[|kept| - 1];
      KeptAreSorted(scopes, |scopes|);
      assert last in kept;
      SealedQuestions(c, last.(id := "", contextSourceIds := [], fullRelations := true));
      assert plan[|kept| - 1].fullRelations && !last.fullRelations;
    } else if groups != [] {
      var out := kept + batches;
      assert |batches| == |groups|;
      assert kept <= out[..|out| - 1];
    } else {
      NoGroupsNoQuestions(c, groups, OpenQuestions(c, scopes));
    }
  }

  lemma NoGroupsNoQuestions(c: Survey, groups: seq<seq<string>>, ids: seq<string>)
    requires IsGrouping(c, groups, ids) && groups == []
    ensures ids == []
  {
    FlattenNothing();
  }

  lemma {:induction false} FinalIsFound(scopes: seq<Scope>, n: nat)
    requires n <= |scopes| && exists i :: 0 <= i < n && IsFinal(scopes[i])
    ensures IsFinal(FinalFirst(scopes, n))
  {
    if !IsFinal(scopes[n - 1]) {
      FinalIsFound(scopes, n - 1);
    }
  }

  /** Planning starts from fresh scopes without batches, or from a frozen plan with its relations
      task. Either way no batch takes the relations over, and everything established stays. */
  lemma EstablishedTasksStay(c: Survey, scopes: seq<Scope>, groups: seq<seq<string>>, plan: seq<Scope>)
    requires IsPlan(c, scopes, groups, plan) && IsReady(scopes)
    requires (forall s | s in scopes :: !IsBatch(s)) || exists s | s in scopes :: IsFinal(s)
    ensures KeptFirst(scopes, |scopes|) <= plan && !TakesOver(c, scopes)
  {
    hide KeptFirst, FinalFirst, OpenQuestions, IsPlan;
    KeptAreSorted(scopes, |scopes|);
    var kept := KeptFirst(scopes, |scopes|);
    if s :| s in scopes && IsFinal(s) {
      FinalIsFound(scopes, |scopes|);
      FinalIsIdentified(scopes, |scopes|);
    } else {
      assert kept != [] ==> kept[|kept| - 1] in kept;
    }
    EstablishedScopesStay(c, scopes, groups, plan);
  }

  /** Every group of open questions is a task of the plan, within both limits once it is sealed. */
  lemma NewBatchesAreBounded(c: Survey, scopes: seq<Scope>, groups: seq<seq<string>>, plan: seq<Scope>, i: nat)
    requires IsPlan(c, scopes, groups, plan) && i < |groups|
    ensures var at := |KeptFirst(scopes, |scopes|)| + i;
      && at < |plan| && plan[at].coverageQuestionIds == groups[i] && 0 < |groups[i]| <= DECISION_UNITS
      && QuestionWork(c, plan[at]) <= WORK_RUNES
  {
    hide KeptFirst, FinalFirst, OpenQuestions, QuestionWork, SealedBatch;
    var kept, sealed := KeptFirst(scopes, |scopes|), SealAll(c, groups);
    var at, batch := |kept| + i, Batch(c, groups[i]);
    assert Fits(c, groups[i]);
    assert (kept + sealed)[at] == SealedBatch(c, batch);
    SealedQuestions(c, batch);
    SealingKeepsWork(c, batch);
    if plan[at] != SealedBatch(c, batch) {
      ConvertedKeepsWork(c, batch);
    }
  }

  lemma ConvertedKeepsWork(c: Survey, batch: Scope)
    requires batch.id == "" && batch.contextSourceIds == []
    ensures var t := Converted(c, SealedBatch(c, batch));
      t.coverageQuestionIds == batch.coverageQuestionIds && QuestionWork(c, t) == QuestionWork(c, batch)
  {
    hide QuestionsFirst, NeededFirst, TextRunes, TopicRunes, RefsOf;
    var full := batch.(fullRelations := true);
    SealingKeepsWork(c, full);
    SameQuestions(c, batch, full, |c.questions|);
  }

  /** The relations task comes last, and nothing else is one; full-article scopes that are not
      batches are gone. */
  lemma RelationsComeLast(c: Survey, scopes: seq<Scope>, groups: seq<seq<string>>, plan: seq<Scope>)
    requires IsPlan(c, scopes, groups, plan) && IsReady(scopes)
    ensures plan != [] && IsFinal(plan[|plan| - 1]) && forall i | 0 <= i < |plan| - 1 :: !IsFinal(plan[i])
    ensures plan[|plan| - 1].fullRelations || plan[|plan| - 1] in scopes
    ensures forall s | s in plan :: s.global ==> s.coverageBatch
    ensures forall s | s in plan :: s in scopes || s.sourceIds == [] || (s.global && TakesOver(c, scopes))
  {
    hide SealedBatch, KeptFirst, FinalFirst, OpenQuestions;
    var kept, batches, n := KeptFirst(scopes, |scopes|), SealAll(c, groups), |scopes|;
    KeptAreSorted(scopes, n);
    FinalIsIdentified(scopes, n);
    var out := kept + batches;
    forall i | 0 <= i < |out| ensures !IsFinal(out[i]) && (out[i].global ==> out[i].coverageBatch)
      && if i < |kept| then out[i] in scopes else out[i].sourceIds == []
    {
      if i < |kept| {
        assert out[i] == kept[i] && kept[i] in kept;
      } else {
        assert out[i] == batches[i - |kept|];
        SealedQuestions(c, Batch(c, groups[i - |kept|]));
        assert Fits(c, groups[i - |kept|]);
      }
    }
    SealedQuestions(c, Batch(c, []).(fullRelations := true));
    if out != [] {
      var last := out[|out| - 1];
      SealedQuestions(c, last.(id := "", contextSourceIds := [], fullRelations := true));
    }
    if groups == [] {
      NoGroupsNoQuestions(c, groups, OpenQuestions(c, scopes));
      assert out == kept;
    } else {
      assert out[|out| - 1] == batches[|batches| - 1];
    }
  }

  /** An article without chapters has one scope, for all originals; planning drops it. */
  lemma EmptyArticleLosesItsScope(c: Survey, whole: Scope, groups: seq<seq<string>>, plan: seq<Scope>)
    requires IsPlan(c, [whole], groups, plan) && whole.global && !whole.coverageBatch
    ensures forall s | s in plan :: s.sourceIds == []
  {
    hide SealedBatch, OpenQuestions, IsGrouping, KeptFirst, FinalFirst;
    NothingKept(whole);
    var batches := SealAll(c, groups);
    forall i | 0 <= i < |batches| ensures batches[i].sourceIds == [] {
      SealedQuestions(c, Batch(c, groups[i]));
    }
    assert [] + batches == batches;
    SealedQuestions(c, Batch(c, []).(fullRelations := true));
    if batches != [] {
      SealedQuestions(c, batches[|batches| - 1].(id := "", contextSourceIds := [], fullRelations := true));
    }
  }

  lemma NothingKept(whole: Scope)
    requires whole.global && !whole.coverageBatch
    ensures KeptFirst([whole], 1) == [] && FinalFirst([whole], 1) == EMPTY
  {
  }

  lemma {:induction false} LocalsAreKept(scopes: seq<Scope>, n: nat, s: Scope)
    requires n <= |scopes| && s in scopes[..n] && !s.global
    ensures s in KeptFirst(scopes, n)
  {
    TakeOneMore(scopes, n);
    if s in scopes[..n - 1] {
      LocalsAreKept(scopes, n - 1, s);
    }
  }

  /** Local review scopes are never touched. */
  lemma LocalsStay(c: Survey, scopes: seq<Scope>, groups: seq<seq<string>>, plan: seq<Scope>, s: Scope)
    requires IsPlan(c, scopes, groups, plan) && IsReady(scopes) && s in scopes && !s.global
    ensures s in plan
  {
    hide KeptFirst, FinalFirst, OpenQuestions, SealedBatch;
    assert scopes[..|scopes|] == scopes;
    LocalsAreKept(scopes, |scopes|, s);
    EstablishedScopesStay(c, scopes, groups, plan);
    var kept := KeptFirst(scopes, |scopes|);
    var i: nat :| i < |kept| && kept[i] == s;
    assert plan[i] == s;
  }

  /** Full-article tasks are batches without sources of their own; local ones name no questions. */
  ghost predicate IsTidy(scopes: seq<Scope>) {
    && (forall s | s in scopes :: s.global ==> s.coverageBatch && s.sourceIds == [])
    && (forall s | s in scopes :: !s.global ==> s.coverageQuestionIds == [])
  }

  /** Whatever chapters the tasks of a plan name, they are those of a scope before or of the article. */
  lemma PlanSections(c: Survey, scopes: seq<Scope>, groups: seq<seq<string>>, plan: seq<Scope>, s: Scope)
    requires IsPlan(c, scopes, groups, plan) && IsReady(scopes) && s in plan
    ensures s.sectionIds == c.sectionIds || exists t | t in scopes :: t.sectionIds == s.sectionIds
  {
    hide KeptFirst, FinalFirst, OpenQuestions, IsGrouping, SealedBatch;
    var kept, batches, n := KeptFirst(scopes, |scopes|), SealAll(c, groups), |scopes|;
    KeptAreSorted(scopes, n);
    FinalIsIdentified(scopes, n);
    var out := kept + batches;
    forall i | 0 <= i < |out| ensures out[i].sectionIds == c.sectionIds || exists t | t in scopes :: t.sectionIds == out[i].sectionIds {
      if i < |kept| {
        assert out[i] == kept[i] && kept[i] in kept;
      } else {
        SealedSections(c, Batch(c, groups[i - |kept|]));
      }
    }
    SealedSections(c, Batch(c, []).(fullRelations := true));
    if out != [] {
      SealedSections(c, out[|out| - 1].(id := "", contextSourceIds := [], fullRelations := true));
    }
  }

  lemma SealedSections(c: Survey, s: Scope)
    ensures SealedBatch(c, s).sectionIds == s.sectionIds
  {
    hide CoverageSources;
  }
}
