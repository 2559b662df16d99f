/** Batching the coverage questions of a review into bounded tasks
    (internal/investigator/article_loop_work.go, internal/domain/article_source_requirements.go). */
module CoverageWork {
  import opened Lists
  import opened ReviewMaterial
  import opened Text
  import opened Wrappers

  const DECISION_UNITS := 8
  const WORK_RUNES := 24000

  datatype Question = Question(id: string, topic: string, evidenceRefs: seq<string>)
  datatype Original = Original(id: string, text: string)
  datatype Survey = Survey(questions: seq<Question>, transcript: seq<Original>, sectionIds: seq<string>, hash: Scope -> string)

  // ----- the questions of a scope and the originals they need

  /** `loopReferenceQuestions`: a scope that is no batch stands for all questions. */
  function QuestionsFirst(c: Survey, scope: Scope, n: nat): seq<Question>
    requires n <= |c.questions|
  {
    if n == 0 then []
    else
      QuestionsFirst(c, scope, n - 1)
      + if !scope.coverageBatch || c.questions[n - 1].id in scope.coverageQuestionIds then [c.questions[n - 1]] else []
  }

  function Questions(c: Survey, scope: Scope): seq<Question> {
    QuestionsFirst(c, scope, |c.questions|)
  }

  function RefsOf(questions: seq<Question>, n: nat): set<string>
    requires n <= |questions|
  {
    if n == 0 then {} else RefsOf(questions, n - 1) + Elements(questions[n - 1].evidenceRefs)
  }

  /** A segment is needed when a question refers to it or to the speech beside it. */
  predicate IsNeeded(refs: set<string>, n: nat, i: nat) {
    Alias(i) in refs || (i > 0 && Alias(i - 1) in refs) || (i + 1 < n && Alias(i + 1) in refs)
  }

  function NeededFirst(transcript: seq<Original>, refs: set<string>, k: nat): seq<string>
    requires k <= |transcript|
  {
    if k == 0 then []
    else
      NeededFirst(transcript, refs, k - 1)
      + if IsNeeded(refs, |transcript|, k - 1) then [transcript[k - 1].id] else []
  }

  function CoverageSources(c: Survey, scope: Scope): seq<string> {
    var questions := Questions(c, scope);
    NeededFirst(c.transcript, RefsOf(questions, |questions|), |c.transcript|)
  }

  function TopicRunes(questions: seq<Question>, n: nat): nat
    requires n <= |questions|
  {
    if n == 0 then 0 else TopicRunes(questions, n - 1) + |questions[n - 1].topic|
  }

  function TextRunes(transcript: seq<Original>, ids: set<string>, n: nat): nat
    requires n <= |transcript|
  {
    if n == 0 then 0 else TextRunes(transcript, ids, n - 1) + if transcript[n - 1].id in ids then |transcript[n - 1].text| else 0
  }

  /** `loopCoverageWork`: the topics to decide and the originals to read. */
  function QuestionWork(c: Survey, scope: Scope): nat {
    var questions := Questions(c, scope);
    TopicRunes(questions, |questions|)
    + TextRunes(c.transcript, Elements(CoverageSources(c, scope)) + Elements(scope.contextSourceIds), |c.transcript|)
  }

  method ReferenceQuestions(c: Survey, scope: Scope) returns (out: seq<Question>)
    ensures out == Questions(c, scope)
  {
    if !scope.coverageBatch {
      AllQuestions(c, scope, |c.questions|);
      assert c.questions[..|c.questions|] == c.questions;
      return c.questions;
    }
    out := [];
    for i := 0 to |c.questions|
      invariant out == QuestionsFirst(c, scope, i)
    {
      if c.questions[i].id in scope.coverageQuestionIds {
        out := out + [c.questions[i]];
      }
    }
  }

  lemma {:induction false} AllQuestions(c: Survey, scope: Scope, n: nat)
    requires !scope.coverageBatch && n <= |c.questions|
    ensures QuestionsFirst(c, scope, n) == c.questions[..n]
  {
    if n > 0 {
      AllQuestions(c, scope, n - 1);
      TakeOneMore(c.questions, n);
    }
  }

  /** `ArticleSourceBoundaryRefs`: the segments beside the primary ones. */
  method BoundaryRefs(n: nat, primary: seq<string>) returns (out: seq<string>)
    ensures forall i: nat | i < n :: Alias(i) in primary || Alias(i) in out <==> IsNeeded(Elements(primary), n, i)
  {
    hide Alias;
    out := [];
    ghost var refs := Elements(primary);
    for i := 0 to n
      invariant forall k: nat | k < n :: Alias(k) in out <==> Alias(k) !in refs && IsBeside(refs, n, i, k)
    {
      if Alias(i) in primary {
        ghost var before := out;
        if i > 0 && Alias(i - 1) !in primary && Alias(i - 1) !in out {
          out := out + [Alias(i - 1)];
        }
        if i + 1 < n && Alias(i + 1) !in primary && Alias(i + 1) !in out {
          out := out + [Alias(i + 1)];
        }
        BesideGrows(refs, n, i, before, out);
      }
    }
    forall i: nat | i < n ensures Alias(i) in primary || Alias(i) in out <==> IsNeeded(refs, n, i) {
    }
  }

  ghost predicate IsBeside(refs: set<string>, n: nat, upTo: nat, k: nat) {
    (0 < k <= upTo && Alias(k - 1) in refs) || (k + 1 < n && k + 1 < upTo && Alias(k + 1) in refs)
  }

  lemma BesideGrows(refs: set<string>, n: nat, i: nat, before: seq<string>, after: seq<string>)
    requires i < n && Alias(i) in refs
    requires forall k: nat | k < n :: Alias(k) in before <==> Alias(k) !in refs && IsBeside(refs, n, i, k)
    requires forall x :: x in after <==> (x in before
      || (i > 0 && x == Alias(i - 1) && x !in refs) || (i + 1 < n && x == Alias(i + 1) && x !in refs))
    ensures forall k: nat | k < n :: Alias(k) in after <==> Alias(k) !in refs && IsBeside(refs, n, i + 1, k)
  {
    hide Alias;
    forall k: nat | k < n ensures Alias(k) in after <==> Alias(k) !in refs && IsBeside(refs, n, i + 1, k) {
      if i > 0 && Alias(k) == Alias(i - 1) {
        AliasInjective(k, i - 1);
      }
      if Alias(k) == Alias(i + 1) {
        AliasInjective(k, i + 1);
      }
    }
  }

  method CoverageSourceIds(c: Survey, scope: Scope) returns (ids: seq<string>)
    ensures ids == CoverageSources(c, scope)
  {
    hide Alias, IsNeeded;
    var questions := ReferenceQuestions(c, scope);
    var refs := [];
    for i := 0 to |questions|
      invariant Elements(refs) == RefsOf(questions, i)
    {
      var more := questions[i].evidenceRefs;
      ghost var before := Elements(refs);
      for j := 0 to |more|
        invariant Elements(refs) == before + Elements(more[..j])
      {
        TakeOneMore(more, j + 1);
        refs := AppendUnique(refs, more[j]);
      }
      assert more[..|more|] == more;
    }
    var boundary := BoundaryRefs(|c.transcript|, refs);
    var delivered := refs + boundary;
    ids := [];
    for i := 0 to |c.transcript|
      invariant ids == NeededFirst(c.transcript, Elements(refs), i)
    {
      if Alias(i) in delivered {
        ids := ids + [c.transcript[i].id];
      }
    }
  }

  method CoverageWorkOf(c: Survey, scope: Scope) returns (work: nat)
    ensures work == QuestionWork(c, scope)
  {
    hide CoverageSources, Questions;
    work := 0;
    var questions := ReferenceQuestions(c, scope);
    for i := 0 to |questions|
      invariant work == TopicRunes(questions, i)
    {
      work := work + |questions[i].topic|;
    }
    var sources := CoverageSourceIds(c, scope);
    var ids := sources + scope.contextSourceIds;
    assert Elements(ids) == Elements(sources) + Elements(scope.contextSourceIds);
    ghost var topics := work;
    for i := 0 to |c.transcript|
      invariant work == topics + TextRunes(c.transcript, Elements(ids), i)
    {
      if c.transcript[i].id in ids {
        work := work + |c.transcript[i].text|;
      }
    }
  }
}
