/** The bookkeeping of coverage questions in the article loop: who raised them, which pending task
    asks them, and which review decided them (internal/investigator/article_loop_input.go,
    internal/domain/article_review_packet.go, internal/store/article_loop.go). */
module LoopCoverage {
  import opened Lists
  import opened Wrappers
  import opened ReviewMaterial
  import opened ReviewTasks
  import opened ReviewPlans
  import opened ReviewWork
  import opened ArticleLoop
  import CoveragePlan
  import CoverageWork
  import ReviewScopes
  import Text

  // ----- the identities of questions

  lemma QuestionIdInjective(p: bool, n: nat, i: nat, p': bool, n': nat, i': nat)
    requires QuestionId(p, n, i) == QuestionId(p', n', i')
    ensures p == p' && n == n' && i == i'
  {
    hide Text.Decimal;
    var a, b, a', b' := Text.Decimal(n), Text.Decimal(i), Text.Decimal(n'), Text.Decimal(i');
    Text.DecimalCounts(n);
    Text.DecimalCounts(n');
    assert QuestionId(p, n, i)[1..] == a + "." + b && QuestionId(p', n', i')[1..] == a' + "." + b';
    assert QuestionId(p, n, i)[0] == (if p then 'p' else 'r') && QuestionId(p', n', i')[0] == if p' then 'p' else 'r';
    Text.CutAt('.', a, b, a', b');
    Text.DecimalInjective(n, n');
    Text.DecimalInjective(i, i');
  }

  ghost predicate DistinctIds(questions: seq<CoverageWork.Question>) {
    forall i, j | 0 <= i < j < |questions| :: questions[i].id != questions[j].id
  }

  ghost predicate IsNamedBelow(q: CoverageWork.Question, n: nat) {
    exists p, k: nat, i: nat :: k < n && q.id == QuestionId(p, k, i)
  }

  /** All questions were raised by earlier calls. */
  ghost predicate NamedBelow(questions: seq<CoverageWork.Question>, n: nat) {
    forall q | q in questions :: IsNamedBelow(q, n)
  }

  lemma RaisedIsNew(p: bool, n: nat, topics: seq<Topic>, k: nat, q: CoverageWork.Question)
    requires k < |topics| && IsNamedBelow(q, n)
    ensures Raised(p, n, topics)[k].id != q.id
  {
    hide QuestionId;
    var p', m: nat, i: nat :| m < n && q.id == QuestionId(p', m, i);
    if Raised(p, n, topics)[k].id == q.id {
      QuestionIdInjective(p, n, k, p', m, i);
    }
  }

  lemma RaisedAreDistinct(questions: seq<CoverageWork.Question>, p: bool, n: nat, topics: seq<Topic>)
    requires DistinctIds(questions) && NamedBelow(questions, n)
    ensures DistinctIds(questions + Raised(p, n, topics)) && NamedBelow(questions + Raised(p, n, topics), n + 1)
  {
    hide QuestionId, IsNamedBelow;
    var more := Raised(p, n, topics);
    var all := questions + more;
    forall i, j | 0 <= i < j < |all| ensures all[i].id != all[j].id {
      if j >= |questions| {
        if i < |questions| {
          assert questions[i] in questions;
          RaisedIsNew(p, n, topics, j - |questions|, questions[i]);
        } else if all[i].id == all[j].id {
          QuestionIdInjective(p, n, i - |questions|, p, n, j - |questions|);
        }
      }
    }
    forall q | q in all ensures IsNamedBelow(q, n + 1) {
      if q in questions {
        NamedLater(q, n);
      } else {
        var i :| 0 <= i < |more| && more[i] == q;
        NamedNow(p, n, topics, i);
      }
    }
  }

  lemma NamedLater(q: CoverageWork.Question, n: nat)
    requires IsNamedBelow(q, n)
    ensures IsNamedBelow(q, n + 1)
  {
    hide QuestionId;
  }

  lemma NamedNow(p: bool, n: nat, topics: seq<Topic>, i: nat)
    requires i < |topics|
    ensures IsNamedBelow(Raised(p, n, topics)[i], n + 1)
  {
    hide QuestionId;
  }

  lemma {:induction false} MergedAppends(questions: seq<CoverageWork.Question>, more: seq<CoverageWork.Question>)
    requires DistinctIds(questions + more)
    ensures Merged(questions, more) == questions + more
    decreases |more|
  {
    var all := questions + more;
    if more != [] {
      var front := more[..|more| - 1];
      assert questions + front == all[..|all| - 1];
      MergedAppends(questions, front);
      LastIsNew(all);
      assert questions + front + [more[|more| - 1]] == all;
    } else {
      assert all == questions;
    }
  }

  lemma LastIsNew(all: seq<CoverageWork.Question>)
    requires DistinctIds(all) && all != []
    ensures forall p | p in all[..|all| - 1] :: p.id != all[|all| - 1].id
  {
  }

  // ----- decisions

  lemma {:induction false} SameDecidedFirst(s: Store, t: Store, keys: seq<Key>, more: seq<Key>, n: nat)
    requires n <= |keys| && n <= |more| && keys[..n] == more[..n]
    requires forall key | key in keys[..n] :: key in s.reviews && key in t.reviews && t.reviews[key] == s.reviews[key]
    ensures DecidedFirst(s, keys, n) == DecidedFirst(t, more, n)
  {
    if n > 0 {
      assert keys[..n][..n - 1] == keys[..n - 1] == more[..n][..n - 1] == more[..n - 1];
      assert keys[..n][n - 1] == keys[n - 1] && more[..n][n - 1] == more[n - 1];
      SameDecidedFirst(s, t, keys, more, n - 1);
    }
  }

  lemma DecidedMore(s: Store, keys: seq<Key>, key: Key)
    requires key in s.reviews && forall k | k in keys :: k in s.reviews
    ensures Decided(s, keys + [key]) == Decided(s, keys) + if s.reviews[key].scope.global then s.reviews[key].decisions else []
  {
    SameDecidedFirst(s, s, keys + [key], keys, |keys|);
  }

  lemma DecidedGrows(s: Store, t: Store, keys: seq<Key>)
    requires forall key | key in keys :: key in s.reviews && key in t.reviews && t.reviews[key] == s.reviews[key]
    ensures Decided(t, keys) == Decided(s, keys)
  {
    SameDecidedFirst(s, t, keys, keys, |keys|);
  }

  lemma {:induction false} DecidedFrom(s: Store, keys: seq<Key>, n: nat, d: Decision)
    requires n <= |keys| && d in DecidedFirst(s, keys, n)
    ensures exists key | key in keys :: key in s.reviews && d in s.reviews[key].decisions
  {
    if d in DecidedFirst(s, keys, n - 1) {
      DecidedFrom(s, keys, n - 1, d);
    } else {
      assert keys[n - 1] in keys;
    }
  }

  lemma DecisionIdsAppend(a: seq<Decision>, b: seq<Decision>)
    ensures DecisionIds(a + b) == DecisionIds(a) + DecisionIds(b)
  {
  }

  lemma {:induction false} OmissionsBlock(decisions: seq<Decision>)
    ensures (exists d | d in decisions :: d.verdict == Missing) ==> IsBlocking(Omissions(decisions))
  {
    if decisions != [] {
      var front, last := decisions[..|decisions| - 1], decisions[|decisions| - 1];
      OmissionsBlock(front);
      assert forall d | d in decisions :: d in front || d == last;
      if last.verdict == Missing {
        assert Issue("coverage:" + last.questionId, true) in Omissions(decisions);
      } else if IsBlocking(Omissions(front)) {
        var i :| i in Omissions(front) && i.blocking;
        assert i in Omissions(decisions);
      }
    }
  }

  lemma {:induction false} CountsOfDistinct(s: seq<string>)
    ensures Distinct(s) <==> forall id :: multiset(s)[id] <= 1
  {
    if s != [] {
      var front, last := s[..|s| - 1], s[|s| - 1];
      assert s == front + [last];
      CountsOfDistinct(front);
      if Distinct(s) {
        forall id ensures multiset(s)[id] <= 1 {
          assert id == last ==> id !in front;
        }
      }
      if forall id :: multiset(s)[id] <= 1 {
        forall id ensures multiset(front)[id] <= 1 {
          assert multiset(front)[id] <= multiset(s)[id];
        }
        assert multiset(s)[last] <= 1;
        assert last !in front;
      }
    }
  }

  /** Distinct values, all from a list of the same length, are that list in some order. */
  lemma SamePermuted(a: seq<string>, b: seq<string>)
    requires Distinct(a) && Distinct(b) && |a| == |b| && forall x | x in a :: x in b
    ensures multiset(a) == multiset(b)
  {
    ElementsCount(a);
    ElementsCount(b);
    assert Elements(a) <= Elements(b);
    assert |Elements(b) - Elements(a)| == |Elements(b)| - |Elements(a)|;
    CountsOfDistinct(a);
    CountsOfDistinct(b);
    forall x ensures multiset(a)[x] == multiset(b)[x] {
      assert multiset(a)[x] <= 1 && multiset(b)[x] <= 1;
      assert x in a <==> x in Elements(a);
      assert x in b <==> x in Elements(b);
      assert x in Elements(b) ==> x in Elements(a);
    }
  }

  lemma CompleteDecides(scope: Scope, asked: seq<string>, raised: nat, decisions: seq<Decision>)
    requires IsComplete(scope, asked, raised, decisions) && scope.global && Distinct(asked)
    ensures multiset(DecisionIds(decisions)) == multiset(asked)
  {
    var ids := DecisionIds(decisions);
    forall x | x in ids ensures x in asked {
      var i :| 0 <= i < |ids| && ids[i] == x;
      assert decisions[i] in decisions;
    }
    SamePermuted(ids, asked);
  }

  // ----- a reviewed task leaves the pending list

  lemma {:induction false} WithoutIs(scopes: seq<Scope>, id: string)
    ensures forall t :: t in Without(scopes, id) <==> t in scopes && t.id != id
  {
    if scopes != [] {
      var front, last := scopes[..|scopes| - 1], scopes[|scopes| - 1];
      WithoutIs(front, id);
      assert forall t | t in scopes :: t in front || t == last;
    }
  }

  lemma NothingWithout(scopes: seq<Scope>, id: string)
    requires forall t | t in scopes :: t.id != id
    ensures Without(scopes, id) == scopes
    decreases |scopes|
  {
    if scopes != [] {
      var front := scopes[..|scopes| - 1];
      NothingWithout(front, id);
      assert scopes == front + [scopes[|scopes| - 1]];
    }
  }

  ghost predicate NamesAtMostOnce(scopes: seq<Scope>) {
    forall id :: CoveragePlan.Ids(scopes)[id] <= 1
  }

  lemma FrontNamesLess(front: seq<Scope>, last: Scope)
    requires NamesAtMostOnce(front + [last])
    ensures NamesAtMostOnce(front)
  {
    hide CoveragePlan.IdsFirst;
    CoveragePlan.IdsSnoc(front, last);
    forall id ensures CoveragePlan.Ids(front)[id] <= 1 {
      assert CoveragePlan.Ids(front + [last])[id] <= 1;
    }
  }

  lemma {:induction false} WithoutIds(scopes: seq<Scope>, id: string, names: seq<string>)
    requires (forall t | t in scopes && t.id == id :: t.coverageQuestionIds == names) && NamesAtMostOnce(scopes)
    requires exists t | t in scopes :: t.id == id
    ensures CoveragePlan.Ids(Without(scopes, id)) + multiset(names) == CoveragePlan.Ids(scopes)
    decreases |scopes|
  {
    hide CoveragePlan.Ids, NamesAtMostOnce;
    var front, last := scopes[..|scopes| - 1], scopes[|scopes| - 1];
    assert scopes == front + [last];
    CoveragePlan.IdsSnoc(front, last);
    FrontNamesLess(front, last);
    if last.id != id {
      WithoutIds(front, id, names);
      CoveragePlan.IdsSnoc(Without(front, id), last);
      assert Without(scopes, id) == Without(front, id) + [last];
    } else if forall t | t in front :: t.id != id {
      NothingWithout(front, id);
    } else {
      var t :| t in front && t.id == id;
      WithoutIds(front, id, names);
      TwinsNameNothing(front, last, t, names);
    }
  }

  lemma TwinsNameNothing(front: seq<Scope>, last: Scope, t: Scope, names: seq<string>)
    requires NamesAtMostOnce(front + [last]) && t in front && t.coverageQuestionIds == names == last.coverageQuestionIds
    ensures names == []
  {
    hide CoveragePlan.IdsFirst;
    if names != [] {
      TwinsAreCounted(front, last, t, names);
    }
  }

  lemma TwinsAreCounted(front: seq<Scope>, last: Scope, t: Scope, names: seq<string>)
    requires t in front && t.coverageQuestionIds == names == last.coverageQuestionIds && names != []
    ensures CoveragePlan.Ids(front + [last])[names[0]] > 1
  {
    hide CoveragePlan.IdsFirst;
    var k :| 0 <= k < |front| && front[k] == t;
    NamedIsCounted(front, k, |front|, names[0]);
    CoveragePlan.IdsSnoc(front, last);
    assert names[0] in multiset(names);
  }

  /** A prefix of a pending list without its last task holds no relations task. */
  lemma {:induction false} WithoutFinals(scopes: seq<Scope>, id: string)
    requires forall s | s in scopes :: !CoveragePlan.IsFinal(s)
    ensures forall s | s in Without(scopes, id) :: !CoveragePlan.IsFinal(s)
  {
    hide CoveragePlan.IsFinal;
    WithoutIs(scopes, id);
  }

  lemma WithoutKeepsLast(scopes: seq<Scope>, id: string)
    requires OneFinal(scopes) && RelationsLast(scopes)
    ensures OneFinal(Without(scopes, id))
    ensures scopes[|scopes| - 1].id != id ==> RelationsLast(Without(scopes, id))
  {
    hide CoveragePlan.IsFinal, OneFinal;
    var front, last := scopes[..|scopes| - 1], scopes[|scopes| - 1];
    OthersAreNotFinal(scopes);
    WithoutFinals(front, id);
    var left := Without(scopes, id);
    if last.id != id {
      assert left[..|left| - 1] == Without(front, id);
      OnlyLastIsFinal(left);
    } else {
      NoneIsFinal(left);
    }
  }

  lemma NoneIsFinal(scopes: seq<Scope>)
    requires forall s | s in scopes :: !CoveragePlan.IsFinal(s)
    ensures OneFinal(scopes)
  {
    hide CoveragePlan.IsFinal;
  }

  lemma FirstIsNotFinal(scopes: seq<Scope>)
    requires OneFinal(scopes) && RelationsLast(scopes) && CoveragePlan.IsFinal(scopes[0])
    ensures |scopes| == 1
  {
    hide CoveragePlan.IsFinal;
  }

  lemma PendingTask(r: Reading, c: CoverageWork.Survey, scopes: seq<Scope>, s: Scope)
    requires IsPending(r, c, scopes) && s in scopes
    ensures IsTask(r, c, s) && IsDigest(r, s) && RelationsLast(scopes) && OneFinal(scopes) && AsksAtMostOnce(scopes)
  {
    hide IsDigest, FramesWhole, OneFinal, AsksAtMostOnce, IsAsked;
  }

  /** MAIN RESULT: taking the first task out of a pending list leaves a pending list that asks exactly
      the other questions; only the relations task can be the last one to go. */
  lemma WithoutIsPending(r: Reading, c: CoverageWork.Survey, scopes: seq<Scope>, t: Scope)
    requires IsPending(r, c, scopes) && Identifies(r, c) && scopes != [] && SameWork(scopes[0], t)
    ensures IsPending(r, c, Without(scopes, t.id))
    ensures CoveragePlan.Ids(Without(scopes, t.id)) + multiset(t.coverageQuestionIds) == CoveragePlan.Ids(scopes)
    ensures Without(scopes, t.id) == [] ==> CoveragePlan.IsFinal(t) && !HasLocal(scopes)
  {
    hide IsPending, IsTask, IsDigest, CoveragePlan.Ids, RelationsLast, OneFinal, Identifies, FramesWhole;
    var left, last := Without(scopes, t.id), scopes[|scopes| - 1];
    assert scopes[0] in scopes && last in scopes;
    PendingTask(r, c, scopes, scopes[0]);
    WithoutIs(scopes, t.id);
    forall s | s in scopes && s.id == t.id ensures SameWork(scopes[0], s) {
      PendingTask(r, c, scopes, s);
      IdsIdentify(r, c, scopes[0], s);
    }
    WithoutIds(scopes, t.id, t.coverageQuestionIds);
    WithoutKeepsLast(scopes, t.id);
    LastIsFinal(scopes);
    if last.id == t.id {
      assert SameWork(scopes[0], last);
      FinalAlike(scopes[0], last);
      FinalAlike(scopes[0], t);
      FirstIsNotFinal(scopes);
      assert left == [];
    } else {
      assert last in left;
    }
    LeftIsPending(r, c, scopes, left);
  }

  lemma FinalAlike(s: Scope, t: Scope)
    requires SameWork(s, t)
    ensures CoveragePlan.IsFinal(s) == CoveragePlan.IsFinal(t) && s.global == t.global
  {
  }

  lemma LastIsFinal(scopes: seq<Scope>)
    requires RelationsLast(scopes)
    ensures CoveragePlan.IsFinal(scopes[|scopes| - 1]) && scopes[|scopes| - 1].global
  {
  }

  lemma LeftIsPending(r: Reading, c: CoverageWork.Survey, scopes: seq<Scope>, left: seq<Scope>)
    requires IsPending(r, c, scopes) && (forall s | s in left :: s in scopes) && OneFinal(left) && (left != [] ==> RelationsLast(left))
    requires CoveragePlan.Ids(left) <= CoveragePlan.Ids(scopes)
    ensures IsPending(r, c, left)
  {
    hide IsTask, OneFinal, RelationsLast, CoveragePlan.Ids, HoldsFrames;
    forall id ensures CoveragePlan.Ids(left)[id] <= 1 {
      assert CoveragePlan.Ids(scopes)[id] <= 1;
    }
  }

  /** A complete review of a pending full-article task decides exactly the questions that it asks. */
  lemma TaskIsDecided(r: Reading, c: CoverageWork.Survey, scopes: seq<Scope>, t: Scope, raised: nat, decisions: seq<Decision>)
    requires IsPending(r, c, scopes) && CoveragePlan.DistinctQuestions(c) && scopes != [] && SameWork(scopes[0], t) && t.global
    requires IsComplete(t, QuestionIds(CoverageWork.Questions(c, t)), raised, decisions)
    ensures multiset(DecisionIds(decisions)) == multiset(t.coverageQuestionIds)
  {
    hide IsPending, CoveragePlan.Ids, CoverageWork.Questions, CoveragePlan.DistinctQuestions, IsDigest, IsAsked;
    var task := scopes[0];
    assert task in scopes;
    PendingTask(r, c, scopes, task);
    SameChosen(c, task, t, |c.questions|);
    SameQuestions(c, task, t);
    forall id ensures multiset(task.coverageQuestionIds)[id] <= 1 {
      NamesOnce(scopes, id);
    }
    ChosenAreNamed(r, c, task);
    var asked := QuestionIds(CoverageWork.Questions(c, task));
    forall id ensures multiset(asked)[id] <= 1 {
    }
    CountsOfDistinct(asked);
    CompleteDecides(t, asked, raised, decisions);
  }

  lemma SameQuestions(c: CoverageWork.Survey, s: Scope, t: Scope)
    requires SameDuties(s, t)
    ensures CoverageWork.Questions(c, s) == CoverageWork.Questions(c, t)
  {
    SameChosen(c, s, t, |c.questions|);
  }

  lemma NamesOnce(scopes: seq<Scope>, id: string)
    requires scopes != [] && AsksAtMostOnce(scopes)
    ensures multiset(scopes[0].coverageQuestionIds)[id] <= 1
  {
    hide CoveragePlan.Ids;
    ReplacedIds(scopes, 0, [], scopes[..0] + [] + scopes[1..]);
    assert CoveragePlan.Ids(scopes)[id] <= 1;
  }

  // ----- plans depend on little

  /** A list of tasks stays one when questions are added, whatever article is looked at. */
  lemma ListAnywhere(r: Reading, c: CoverageWork.Survey, r': Reading, c': CoverageWork.Survey, scopes: seq<Scope>)
    requires IsList(r, c, scopes) && r'.hash == r.hash && forall q | q in c.questions :: q in c'.questions
    ensures IsList(r', c', scopes)
  {
    hide CoveragePlan.Ids, OneFinal;
    forall s | s in scopes ensures IsTask(r', c', s) {
      assert IsTask(r, c, s);
      forall id | id in s.coverageQuestionIds ensures IsAsked(c', id) {
        assert IsAsked(c, id);
      }
      var t :| s.id == r.hash(t) && SameDuties(s, t);
      assert s.id == r'.hash(t);
    }
  }

  lemma SoundAnywhere(r: Reading, c: CoverageWork.Survey, r': Reading, c': CoverageWork.Survey, plan: seq<Scope>)
    requires IsSound(r, c, plan) && r'.hash == r.hash && forall q | q in c.questions :: q in c'.questions
    ensures IsSound(r', c', plan)
  {
    hide IsList, NamesLocalChapters, HasRelations;
    ListAnywhere(r, c, r', c', plan);
  }

  lemma PendingAnywhere(r: Reading, c: CoverageWork.Survey, r': Reading, c': CoverageWork.Survey, scopes: seq<Scope>)
    requires IsPending(r, c, scopes) && r'.hash == r.hash && r'.article == r.article && forall q | q in c.questions :: q in c'.questions
    ensures IsPending(r', c', scopes)
  {
    hide IsList, RelationsLast, HoldsFrames;
    ListAnywhere(r, c, r', c', scopes);
  }
}
