/** The article loop relies on its planning parts through `LoopSafety.IsFaithful`. This module gives
    parameters that meet it: a digest that can be read back, one local task for the whole article, and
    one task for all questions and the relations. Replies, drafts and limits stay arbitrary. */
module FaithfulPlanning {
  import opened Lists
  import opened Wrappers
  import opened ReviewMaterial
  import opened ReviewTasks
  import opened ReviewPlans
  import opened ReviewWork
  import opened ArticleLoop
  import opened LoopSafety
  import LoopCoverage
  import CoveragePlan
  import CoverageWork
  import ReviewScopes

  // ----- a digest

  /** Every character is announced, so the end shows. */
  function Spelled(s: string): string {
    if s == "" then "0" else "1" + [s[0]] + Spelled(s[1..])
  }

  function SpelledAll(list: seq<string>): string {
    if list == [] then "0" else "1" + Spelled(list[0]) + SpelledAll(list[1..])
  }

  function Flag(b: bool): string {
    if b then "1" else "0"
  }

  function Digest(s: Scope): string {
    Flag(s.global) + (Flag(s.coverageBatch) + (Flag(s.fullRelations) + (SpelledAll(s.sectionIds) + (SpelledAll(s.sourceIds) + SpelledAll(s.coverageQuestionIds)))))
  }

  lemma {:induction false} SpelledOnce(s: string, rest: string, t: string, rest': string)
    requires Spelled(s) + rest == Spelled(t) + rest'
    ensures s == t && rest == rest'
    decreases |s|
  {
    var a, b := Spelled(s) + rest, Spelled(t) + rest';
    assert a[0] == (if s == "" then '0' else '1') && b[0] == if t == "" then '0' else '1';
    if s == "" {
      assert a[1..] == rest && b[1..] == rest';
    } else {
      assert a[1] == s[0] && b[1] == t[0];
      assert a[2..] == Spelled(s[1..]) + rest && b[2..] == Spelled(t[1..]) + rest';
      SpelledOnce(s[1..], rest, t[1..], rest');
      assert s == [s[0]] + s[1..] && t == [t[0]] + t[1..];
    }
  }

  lemma {:induction false} ListSpelledOnce(s: seq<string>, rest: string, t: seq<string>, rest': string)
    requires SpelledAll(s) + rest == SpelledAll(t) + rest'
    ensures s == t && rest == rest'
    decreases |s|
  {
    hide Spelled;
    var a, b := SpelledAll(s) + rest, SpelledAll(t) + rest';
    assert a[0] == (if s == [] then '0' else '1') && b[0] == if t == [] then '0' else '1';
    if s == [] {
      assert a[1..] == rest && b[1..] == rest';
    } else {
      assert a[1..] == Spelled(s[0]) + (SpelledAll(s[1..]) + rest) && b[1..] == Spelled(t[0]) + (SpelledAll(t[1..]) + rest');
      SpelledOnce(s[0], SpelledAll(s[1..]) + rest, t[0], SpelledAll(t[1..]) + rest');
      ListSpelledOnce(s[1..], rest, t[1..], rest');
      assert s == [s[0]] + s[1..] && t == [t[0]] + t[1..];
    }
  }

  lemma FlaggedOnce(b: bool, rest: string, b': bool, rest': string)
    requires Flag(b) + rest == Flag(b') + rest'
    ensures b == b' && rest == rest'
  {
    assert (Flag(b) + rest)[0] == Flag(b)[0] && (Flag(b') + rest')[0] == Flag(b')[0];
    assert (Flag(b) + rest)[1..] == rest && (Flag(b') + rest')[1..] == rest';
  }

  lemma DigestIdentifies(s: Scope, t: Scope)
    requires Digest(s) == Digest(t)
    ensures SameDuties(s, t)
  {
    hide SpelledAll, Flag;
    var s1, t1 := SpelledAll(s.sourceIds) + SpelledAll(s.coverageQuestionIds), SpelledAll(t.sourceIds) + SpelledAll(t.coverageQuestionIds);
    var s2, t2 := SpelledAll(s.sectionIds) + s1, SpelledAll(t.sectionIds) + t1;
    var s3, t3 := Flag(s.fullRelations) + s2, Flag(t.fullRelations) + t2;
    FlaggedOnce(s.global, Flag(s.coverageBatch) + s3, t.global, Flag(t.coverageBatch) + t3);
    FlaggedOnce(s.coverageBatch, s3, t.coverageBatch, t3);
    FlaggedOnce(s.fullRelations, s2, t.fullRelations, t2);
    ListSpelledOnce(s.sectionIds, s1, t.sectionIds, t1);
    ListSpelledOnce(s.sourceIds, SpelledAll(s.coverageQuestionIds), t.sourceIds, SpelledAll(t.coverageQuestionIds));
    assert SpelledAll(s.coverageQuestionIds) + "" == SpelledAll(s.coverageQuestionIds) && SpelledAll(t.coverageQuestionIds) + "" == SpelledAll(t.coverageQuestionIds);
    ListSpelledOnce(s.coverageQuestionIds, "", t.coverageQuestionIds, "");
  }

  // ----- two tasks

  function Named(s: Scope): Scope {
    s.(id := Digest(s))
  }

  function Everything(r: Reading): Scope {
    Named(EMPTY.(sectionIds := ReviewScopes.SectionIds(r.article), sourceIds := r.transcript, frameIds := ArticleFrames(r.article)))
  }

  function AllQuestionsTask(c: CoverageWork.Survey): Scope {
    Named(EMPTY.(global := true, sectionIds := c.sectionIds, coverageBatch := true, coverageQuestionIds := QuestionIds(c.questions), fullRelations := true))
  }

  lemma NamedIsDigest(r: Reading, s: Scope)
    requires r.hash == Digest
    ensures IsDigest(r, Named(s))
  {
    hide Digest;
    assert Named(s).id == r.hash(s) && SameDuties(Named(s), s);
  }

  lemma EverythingHoldsFrames(r: Reading)
    ensures HoldsFrames(r.article, Everything(r))
  {
    hide ContentFrames, Digest;
    var a, s := r.article, Everything(r);
    forall k, id | 0 <= k < |a.sections| && a.sections[k].id in s.sectionIds && id in ContentFrames(a, a.sections[k]) ensures id in s.frameIds {
      RangeFrame(a, 0, |a.sections|, id);
    }
  }

  lemma EachAskedOnce(c: CoverageWork.Survey, id: string)
    requires CoveragePlan.DistinctQuestions(c)
    ensures multiset(QuestionIds(c.questions))[id] == if IsAsked(c, id) then 1 else 0
  {
    var ids := QuestionIds(c.questions);
    LoopCoverage.CountsOfDistinct(ids);
    if IsAsked(c, id) {
      var q :| q in c.questions && q.id == id;
      var i :| 0 <= i < |c.questions| && c.questions[i] == q;
      assert ids[i] == id;
    } else {
      forall i | 0 <= i < |ids| ensures ids[i] != id {
        assert c.questions[i] in c.questions;
      }
    }
  }

  lemma TwoTasksAsk(r: Reading, c: CoverageWork.Survey)
    requires CoveragePlan.DistinctQuestions(c)
    ensures var plan := [Everything(r), AllQuestionsTask(c)]; AsksOnce(c, plan) && AsksAtMostOnce(plan)
  {
    hide CoveragePlan.Ids, Digest;
    PairIds(Everything(r), AllQuestionsTask(c));
    forall id ensures CoveragePlan.Ids([Everything(r), AllQuestionsTask(c)])[id] == if IsAsked(c, id) then 1 else 0 {
      EachAskedOnce(c, id);
    }
    forall i | 0 <= i < |c.questions| ensures IsAsked(c, c.questions[i].id) {
      assert c.questions[i] in c.questions;
    }
  }

  lemma TwoTasksAreTasks(r: Reading, c: CoverageWork.Survey)
    requires r.hash == Digest
    ensures IsTask(r, c, Everything(r)) && IsTask(r, c, AllQuestionsTask(c)) && CoveragePlan.IsFinal(AllQuestionsTask(c)) && !CoveragePlan.IsFinal(Everything(r))
  {
    hide Digest, IsDigest;
    NamedIsDigest(r, EMPTY.(sectionIds := ReviewScopes.SectionIds(r.article), sourceIds := r.transcript, frameIds := ArticleFrames(r.article)));
    NamedIsDigest(r, EMPTY.(global := true, sectionIds := c.sectionIds, coverageBatch := true, coverageQuestionIds := QuestionIds(c.questions), fullRelations := true));
    forall id | id in QuestionIds(c.questions) ensures IsAsked(c, id) {
      var i :| 0 <= i < |c.questions| && QuestionIds(c.questions)[i] == id;
      assert c.questions[i] in c.questions;
    }
  }

  lemma TwoTasksAreSound(r: Reading, c: CoverageWork.Survey, local: Scope, final: Scope)
    requires IsTask(r, c, local) && IsTask(r, c, final) && CoveragePlan.IsFinal(final) && !CoveragePlan.IsFinal(local)
    requires !IsRelations(local) && local.sectionIds == final.sectionIds && AsksAtMostOnce([local, final])
    ensures IsSound(r, c, [local, final]) && RelationsLast([local, final])
  {
    hide IsTask, CoveragePlan.Ids, AsksAtMostOnce;
    var plan := [local, final];
    assert local in plan && final in plan && plan[0] == local && plan[1] == final;
  }

  lemma TwoTasksCover(r: Reading, c: CoverageWork.Survey)
    ensures CoversMaterial(r, [Everything(r), AllQuestionsTask(c)]) && FramesWhole(r.article, [Everything(r), AllQuestionsTask(c)])
  {
    hide Digest, HoldsFrames;
    EverythingHoldsFrames(r);
    assert Everything(r) in [Everything(r), AllQuestionsTask(c)];
  }

  lemma TwoTasksArePlan(r: Reading, c: CoverageWork.Survey)
    requires r.hash == Digest && CoveragePlan.DistinctQuestions(c) && c.sectionIds == ReviewScopes.SectionIds(r.article)
    ensures IsPlanned(r, c, [Everything(r), AllQuestionsTask(c)])
  {
    hide Digest, IsTask, CoveragePlan.Ids, CoveragePlan.IsFinal, AsksOnce, AsksAtMostOnce, CoversMaterial, FramesWhole, IsSound, RelationsLast;
    TwoTasksAreTasks(r, c);
    TwoTasksAsk(r, c);
    TwoTasksCover(r, c);
    TwoTasksAreSound(r, c, Everything(r), AllQuestionsTask(c));
  }

  // ----- parameters that are faithful

  ghost function PlanOf(env: Env): (Loop, ArticleLoop.Article) -> Option<seq<Scope>> {
    (l: Loop, h: ArticleLoop.Article) => Some([Everything(ReadingOf(env, l, h)), AllQuestionsTask(SurveyOf(env, l, h))])
  }

  /** Work goes on until a question turns up that no task asks. */
  ghost function ReadyOf(env: Env): (Loop, ArticleLoop.Article) -> Option<Backlog> {
    (l: Loop, h: ArticleLoop.Article) => if HasLocal(l.scopes) || NoNewQuestion(SurveyOf(env, l, h), l.plan) then Some(BacklogOf(l)) else None
  }

  /** Any parameters, with their planning parts replaced. */
  ghost function Simplified(env: Env): Env {
    var named := env.(hash := Digest);
    named.(
      plan := PlanOf(named), ready := ReadyOf(named), split := (l: Loop, h: ArticleLoop.Article, t: Scope) => None,
      dress := (l: Loop, h: ArticleLoop.Article, t: Scope) => t,
      valid := (h: ArticleLoop.Article) => env.valid(h) && h.outline.sections != [] && Distinct(ReviewScopes.SectionIds(h.outline)))
  }

  lemma SimplifiedReads(env: Env, l: Loop, h: ArticleLoop.Article)
    ensures var s, named := Simplified(env), env.(hash := Digest);
      && ReadingOf(s, l, h) == ReadingOf(named, l, h) && SurveyOf(s, l, h) == SurveyOf(named, l, h) && ReadingOf(s, l, h).hash == Digest
      && s.plan(l, h) == Some([Everything(ReadingOf(s, l, h)), AllQuestionsTask(SurveyOf(s, l, h))])
      && s.ready(l, h) == if HasLocal(l.scopes) || NoNewQuestion(SurveyOf(s, l, h), l.plan) then Some(BacklogOf(l)) else None
  {
    hide Digest, Everything, AllQuestionsTask;
    var s, named := Simplified(env), env.(hash := Digest);
    assert SurveyOf(s, l, h).transcript == SurveyOf(named, l, h).transcript;
  }

  /** MAIN RESULT: what the safety of the loop assumes of its parameters can be met, whatever the model
      replies, however drafts are edited, and whatever the limits are. */
  lemma SimplifiedIsFaithful(env: Env)
    ensures IsFaithful(Simplified(env))
  {
    hide Digest, Everything, AllQuestionsTask, IsPlanned, IsWork, IsReadied, NoNewQuestion, HasLocal, Identifies;
    var s := Simplified(env);
    SimplifiedHashes(env);
    forall l, h ensures PlansWell(s, l, h) && ReadiesWell(s, l, h) {
      var r, c := ReadingOf(s, l, h), SurveyOf(s, l, h);
      SimplifiedReads(env, l, h);
      if CanPlan(r, c, l.plan) {
        TwoTasksArePlan(r, c);
      }
      if IsWork(r, c, BacklogOf(l)) && (HasLocal(l.scopes) || NoNewQuestion(c, l.plan)) {
        NothingNewIsReadied(r, c, BacklogOf(l));
      }
    }
  }

  lemma SimplifiedHashes(env: Env)
    ensures HashIdentifies(Simplified(env))
  {
    hide SpelledAll, PlanOf, ReadyOf;
    forall s, t | Digest(s) == Digest(t) ensures SameDuties(s, t) {
      DigestIdentifies(s, t);
    }
  }
}
