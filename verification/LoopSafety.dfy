/** What every reachable store of the article loop satisfies: an approval stands for a complete review
    without blocking findings, and nothing that is still to be reviewed is forgotten
    (internal/investigator/article_loop.go, article_loop_input.go; internal/store/article_loop.go). */
module LoopSafety {
  import opened Lists
  import opened Wrappers
  import opened ReviewMaterial
  import opened ReviewTasks
  import opened ReviewPlans
  import opened ReviewWork
  import opened ArticleLoop
  import opened LoopCoverage
  import opened LoopRecovery
  import CoveragePlan
  import CoverageWork
  import ReviewScopes

  // ----- what the planning parts guarantee

  function BacklogOf(l: Loop): Backlog {
    Backlog(l.scopes, l.plan)
  }

  /** Digests identify what a task answers for. */
  ghost predicate HashIdentifies(env: Env) {
    (forall s :: env.hash(s) != "") && forall s, t | env.hash(s) == env.hash(t) :: SameDuties(s, t)
  }

  /** A valid article has chapters, under different names. */
  ghost predicate ValidatesWell(env: Env, h: ArticleLoop.Article) {
    env.valid(h) ==> h.outline.sections != [] && Distinct(ReviewScopes.SectionIds(h.outline))
  }

  /** `ReviewPlanning.Planner.PlanReview` promises this. */
  ghost predicate PlansWell(env: Env, l: Loop, h: ArticleLoop.Article) {
    CanPlan(ReadingOf(env, l, h), SurveyOf(env, l, h), l.plan) && env.plan(l, h).Some? ==>
      IsPlanned(ReadingOf(env, l, h), SurveyOf(env, l, h), env.plan(l, h).value)
  }

  ghost predicate AtWork(env: Env, l: Loop, h: ArticleLoop.Article) {
    IsWork(ReadingOf(env, l, h), SurveyOf(env, l, h), BacklogOf(l)) && l.scopes != []
  }

  /** And this `Planner.Refresh`, also after earlier refreshes and splits (`ReviewWork.ReadiedAfter`). */
  ghost predicate ReadiesWell(env: Env, l: Loop, h: ArticleLoop.Article) {
    AtWork(env, l, h) && env.ready(l, h).Some? ==> IsReadied(ReadingOf(env, l, h), SurveyOf(env, l, h), BacklogOf(l), env.ready(l, h).value)
  }

  /** And this `Planner.SplitAt`. */
  ghost predicate SplitsWell(env: Env, l: Loop, h: ArticleLoop.Article, t: Scope) {
    AtWork(env, l, h) && env.split(l, h, t).Some? ==> Continues(ReadingOf(env, l, h), SurveyOf(env, l, h), BacklogOf(l), env.split(l, h, t).value)
  }

  /** Context does not change a work unit. */
  ghost predicate DressesWell(env: Env, l: Loop, h: ArticleLoop.Article, t: Scope) {
    SameWork(t, env.dress(l, h, t)) && env.dress(l, h, t).frameIds == t.frameIds
  }

  /** The parameters behave as the parts of the engine that they stand for. */
  ghost predicate IsFaithful(env: Env) {
    && HashIdentifies(env) && (forall h :: ValidatesWell(env, h))
    && (forall l, h :: PlansWell(env, l, h)) && (forall l, h :: ReadiesWell(env, l, h))
    && (forall l, h, t :: SplitsWell(env, l, h, t)) && (forall l, h, t :: DressesWell(env, l, h, t))
  }

  // ----- reviewed work

  ghost predicate ReviewsSection(s: Store, keys: seq<Key>, id: string) {
    exists key | key in keys :: key in s.reviews && !IsRelations(s.reviews[key].scope) && id in s.reviews[key].scope.sectionIds
  }

  ghost predicate ReviewsSource(s: Store, keys: seq<Key>, id: string) {
    exists key | key in keys :: key in s.reviews && !IsRelations(s.reviews[key].scope) && id in s.reviews[key].scope.sourceIds
  }

  ghost predicate ReviewsFrame(s: Store, keys: seq<Key>, id: string) {
    exists key | key in keys :: key in s.reviews && !IsRelations(s.reviews[key].scope) && id in s.reviews[key].scope.frameIds
  }

  ghost predicate ReviewsRelations(s: Store, keys: seq<Key>) {
    exists key | key in keys :: key in s.reviews && CoveragePlan.IsFinal(s.reviews[key].scope)
  }

  /** Every chapter and original is either reviewed or still to be reviewed. */
  ghost predicate NothingForgotten(env: Env, s: Store, h: ArticleLoop.Article, scopes: seq<Scope>, keys: seq<Key>) {
    && (forall id | id in ReviewScopes.SectionIds(h.outline) :: HasSection(scopes, id) || ReviewsSection(s, keys, id))
    && (forall id | id in env.transcript :: HasSource(scopes, id) || ReviewsSource(s, keys, id))
  }

  /** The questions decided by the reviews, with their multiplicity. */
  ghost function DecidedIds(s: Store, keys: seq<Key>): multiset<string> {
    multiset(DecisionIds(Decided(s, keys)))
  }

  /** A stored review is what the code makes of an admitted report, or a rebinding of one. */
  ghost predicate RecordHonest(env: Env, s: Store, key: Key)
    requires key in s.reviews
  {
    var r := s.reviews[key];
    && r.evidence == env.evidence(r.candidate) && r.material == Material(env.judged(r.candidate, r.scope), r.scope)
    && IsComplete(r.scope, r.asked, |r.questions|, r.decisions) && ((exists d | d in r.decisions :: d.verdict == Missing) ==> IsBlocking(r.issues))
    && (!IsRelations(r.scope) ==> HoldsFrames(r.candidate.outline, r.scope))
    && (key.Accepted? <==> r.reusedFrom.None?) && (r.reusedFrom.Some? ==> IsRebinding(s, r, r.reusedFrom.value))
  }

  ghost predicate RecordsHonest(env: Env, s: Store) {
    forall key | key in s.reviews :: RecordHonest(env, s, key)
  }

  /** The reviews counted for a candidate are its own, made before call `n`; what blocks one is open. */
  ghost predicate KeysHold(s: Store, h: ArticleLoop.Article, keys: seq<Key>, issues: seq<Issue>, n: nat) {
    && Distinct(keys)
    && (forall key | key in keys :: key in s.reviews && s.reviews[key].candidate == h && (key.Accepted? ==> key.calls < n))
    && (forall key | key in keys :: IsBlocking(s.reviews[key].issues) ==> IsBlocking(issues))
  }

  ghost predicate DecidesOnce(s: Store, keys: seq<Key>) {
    Distinct(DecisionIds(Decided(s, keys))) && forall d | d in Decided(s, keys) :: d.verdict == Covered
  }

  /** An approval stands for reviews of this very candidate and evidence, none blocking, that together
      cover every chapter, original and frame by local work and judge the relations; what they decide
      is covered, and decided once. */
  ghost predicate IsEarned(env: Env, s: Store, ap: Approval) {
    var h := ap.candidate;
    && h in s.candidates && ap.evidence == env.evidence(h) && ap.keys != [] && Distinct(ap.keys)
    && (forall key | key in ap.keys :: RecordPasses(env, s, h, key))
    && (forall id | id in ReviewScopes.SectionIds(h.outline) :: ReviewsSection(s, ap.keys, id))
    && (forall id | id in env.transcript :: ReviewsSource(s, ap.keys, id))
    && (forall id | id in ArticleFrames(h.outline) :: ReviewsFrame(s, ap.keys, id))
    && ReviewsRelations(s, ap.keys) && DecidesOnce(s, ap.keys)
  }

  // ----- the state of the loop

  /** The frozen plan is fit for planning the review of whatever article. */
  ghost predicate PlanSafe(env: Env, l: Loop) {
    forall h :: CanPlan(ReadingOf(env, l, h), SurveyOf(env, l, h), l.plan)
  }

  /** Nothing is pending: the relations are judged, every question was asked, the approval is there. */
  ghost predicate IsConcluded(env: Env, s: Store, l: Loop, h: ArticleLoop.Article) {
    && h in s.approvals && s.approvals[h] == Approval(h, env.evidence(h), l.draftVersion, l.keys)
    && ReviewsRelations(s, l.keys) && AsksOnce(SurveyOf(env, l, h), l.plan)
  }

  /** A candidate is the current draft. Its chapters and originals are reviewed or pending, and each
      question of the plan is either pending once or decided once. */
  ghost predicate CandidateSafe(env: Env, s: Store, l: Loop, h: ArticleLoop.Article, n: nat) {
    && h in s.candidates && s.current == Draft(l.draftVersion, h) && env.valid(h) && AllIn(env.transcript, l.planned)
    && KeysHold(s, h, l.keys, l.issues, n) && IsWork(ReadingOf(env, l, h), SurveyOf(env, l, h), BacklogOf(l))
    && NothingForgotten(env, s, h, l.scopes, l.keys)
    && CoveragePlan.Ids(l.scopes) + DecidedIds(s, l.keys) == CoveragePlan.Ids(l.plan)
    && (l.scopes == [] ==> IsConcluded(env, s, l, h))
  }

  ghost predicate LoopSafe(env: Env, s: Store, l: Loop, n: nat) {
    NamedBelow(l.questions, n) && PlanSafe(env, l) && (l.candidate.Some? ==> CandidateSafe(env, s, l, l.candidate.value, n))
  }

  /** A review is of the first pending task; with only full-article tasks left, all questions are asked. */
  ghost predicate ReviewsFirst(env: Env, l: Loop, scope: Scope) {
    && l.candidate.Some? && l.scopes != [] && SameWork(l.scopes[0], scope) && scope.frameIds == l.scopes[0].frameIds
    && (HasLocal(l.scopes) || AsksOnce(SurveyOf(env, l, l.candidate.value), l.plan))
  }

  /** Calls other than reviews are made without a candidate. */
  ghost predicate ActsOn(env: Env, l: Loop, call: Call) {
    match call.mode
    case Review(scope) => ReviewsFirst(env, l, scope)
    case Source => l.candidate.None?
    case Author => l.candidate.None? && AllIn(env.transcript, l.planned)
  }

  ghost predicate TurnIsSafe(env: Env, s: Store) {
    s.loop.pending.Some? && s.loop.pending.value.slot in s.turns ==>
      LoopSafe(env, s, s.turns[s.loop.pending.value.slot], s.calls + 1) && s.turns[s.loop.pending.value.slot].pending.None?
  }

  ghost predicate ApprovalsEarned(env: Env, s: Store) {
    forall h | h in s.approvals :: s.approvals[h].candidate == h && IsEarned(env, s, s.approvals[h])
  }

  /** Before the turn of the pending call is recorded, its own call number is still unused. */
  function Dated(s: Store): nat {
    if s.loop.pending.Some? then s.calls else s.calls + 1
  }

  ghost predicate IsSafe(env: Env, s: Store) {
    && LoopSafe(env, s, s.loop, Dated(s)) && (s.loop.pending.Some? ==> ActsOn(env, s.loop, s.loop.pending.value))
    && TurnIsSafe(env, s) && RecordsHonest(env, s) && ApprovalsEarned(env, s)
    && (s.published.Some? ==> Gate(env, s, s.published.value))
  }

  // ----- growing stores

  /** No review, candidate or approval is lost. */
  ghost predicate Grows(s: Store, t: Store) {
    && s.candidates <= t.candidates
    && (forall key {:trigger key in s.reviews} | key in s.reviews :: key in t.reviews && t.reviews[key] == s.reviews[key])
    && (forall h {:trigger h in s.approvals} | h in s.approvals :: h in t.approvals && t.approvals[h] == s.approvals[h])
  }

  lemma PassesGrows(env: Env, s: Store, t: Store, h: ArticleLoop.Article, key: Key)
    requires Grows(s, t) && RecordPasses(env, s, h, key)
    ensures RecordPasses(env, t, h, key)
  {
    hide IsComplete, IsBlocking;
  }

  lemma EarnedGrows(env: Env, s: Store, t: Store, ap: Approval)
    requires Grows(s, t) && IsEarned(env, s, ap)
    ensures IsEarned(env, t, ap)
  {
    hide RecordPasses, Decided, Grows;
    forall key | key in ap.keys ensures RecordPasses(env, t, ap.candidate, key) && key in s.reviews && key in t.reviews && t.reviews[key] == s.reviews[key] {
      PassesGrows(env, s, t, ap.candidate, key);
      PassingIsStored(env, s, t, ap.candidate, key);
    }
    DecidedGrows(s, t, ap.keys);
    StillACandidate(s, t, ap.candidate);
  }

  lemma StillACandidate(s: Store, t: Store, h: ArticleLoop.Article)
    requires Grows(s, t) && h in s.candidates
    ensures h in t.candidates
  {
  }

  lemma PassingIsStored(env: Env, s: Store, t: Store, h: ArticleLoop.Article, key: Key)
    requires Grows(s, t) && RecordPasses(env, s, h, key)
    ensures key in s.reviews && key in t.reviews && t.reviews[key] == s.reviews[key]
  {
    hide IsComplete, IsBlocking;
  }

  lemma KeysGrow(s: Store, t: Store, h: ArticleLoop.Article, keys: seq<Key>, issues: seq<Issue>, n: nat)
    requires Grows(s, t) && KeysHold(s, h, keys, issues, n)
    ensures KeysHold(t, h, keys, issues, n) && Decided(t, keys) == Decided(s, keys)
    ensures forall key | key in keys :: key in s.reviews && key in t.reviews && t.reviews[key] == s.reviews[key]
  {
    hide IsBlocking, Decided;
    DecidedGrows(s, t, keys);
  }

  lemma CandidateGrows(env: Env, s: Store, t: Store, l: Loop, h: ArticleLoop.Article, n: nat)
    requires Grows(s, t) && t.current == s.current && CandidateSafe(env, s, l, h, n)
    ensures CandidateSafe(env, t, l, h, n)
  {
    hide HasSection, HasSource, IsWork, KeysHold, CoveragePlan.Ids, Decided, AsksOnce;
    KeysGrow(s, t, h, l.keys, l.issues, n);
  }

  lemma SafeGrows(env: Env, s: Store, t: Store, l: Loop, n: nat)
    requires Grows(s, t) && t.current == s.current && LoopSafe(env, s, l, n)
    ensures LoopSafe(env, t, l, n)
  {
    hide CandidateSafe, PlanSafe, NamedBelow, Grows;
    if l.candidate.Some? {
      CandidateGrows(env, s, t, l, l.candidate.value, n);
    }
  }

  lemma HonestGrows(env: Env, s: Store, t: Store, key: Key)
    requires Grows(s, t) && key in s.reviews && RecordHonest(env, s, key)
    ensures key in t.reviews && RecordHonest(env, t, key)
  {
    hide IsComplete, IsBlocking, HoldsFrames;
  }

  ghost predicate AllMade(s: Store, ws: seq<Write>) {
    forall i | 0 <= i < |ws| :: Has(s, ws[i])
  }

  lemma NamedLonger(questions: seq<CoverageWork.Question>, n: nat)
    requires NamedBelow(questions, n)
    ensures NamedBelow(questions, n + 1)
  {
    hide IsNamedBelow;
    forall q | q in questions ensures IsNamedBelow(q, n + 1) {
      NamedLater(q, n);
    }
  }

  // ----- work looked at from another loop

  ghost predicate AsksNoLess(l: Loop, l': Loop) {
    forall q | q in l.questions :: q in l'.questions
  }

  lemma WorkElsewhere(env: Env, l: Loop, l': Loop, h: ArticleLoop.Article)
    requires IsWork(ReadingOf(env, l, h), SurveyOf(env, l, h), BacklogOf(l'))
    requires AsksNoLess(l, l') && DistinctIds(l'.questions)
    ensures IsWork(ReadingOf(env, l', h), SurveyOf(env, l', h), BacklogOf(l'))
  {
    hide IsSound, IsPending, HasSection, CoveragePlan.Ids;
    var r, c, r', c' := ReadingOf(env, l, h), SurveyOf(env, l, h), ReadingOf(env, l', h), SurveyOf(env, l', h);
    SoundAnywhere(r, c, r', c', l'.plan);
    PendingAnywhere(r, c, r', c', l'.scopes);
  }

  lemma PlanElsewhere(env: Env, l: Loop, l': Loop, h: ArticleLoop.Article)
    requires CanPlan(ReadingOf(env, l, h), SurveyOf(env, l, h), l'.plan)
    requires AsksNoLess(l, l') && DistinctIds(l'.questions)
    ensures PlanSafe(env, l')
  {
    hide IsSound;
    forall h' ensures CanPlan(ReadingOf(env, l', h'), SurveyOf(env, l', h'), l'.plan) {
      if l'.plan != [] {
        SoundAnywhere(ReadingOf(env, l, h), SurveyOf(env, l, h), ReadingOf(env, l', h'), SurveyOf(env, l', h'), l'.plan);
      }
    }
  }

  lemma PlanStays(env: Env, l: Loop, l': Loop)
    requires PlanSafe(env, l) && l'.plan == l.plan && AsksNoLess(l, l') && DistinctIds(l'.questions)
    ensures PlanSafe(env, l')
  {
    hide CanPlan;
    var h := ArticleLoop.Article(ReviewMaterial.Article([], [], []), "");
    PlanElsewhere(env, l, l', h);
  }

  lemma PlanIsDistinct(env: Env, l: Loop)
    requires PlanSafe(env, l)
    ensures DistinctIds(l.questions) && HashIdentifies(env)
  {
    hide IsSound;
    var h := ArticleLoop.Article(ReviewMaterial.Article([], [], []), "");
    assert CanPlan(ReadingOf(env, l, h), SurveyOf(env, l, h), l.plan);
  }

  lemma WorkIdentifies(r: Reading, c: CoverageWork.Survey, w: Backlog)
    requires IsWork(r, c, w)
    ensures Identifies(r, c) && IsPending(r, c, w.scopes) && CanPlan(r, c, w.plan) && CoveragePlan.DistinctQuestions(c)
    ensures CoveragePlan.Ids(w.scopes) <= CoveragePlan.Ids(w.plan)
  {
    hide IsSound, IsPending, CoveragePlan.Ids, HasSection, CoveragePlan.DistinctQuestions;
  }

  // ----- accepting a review

  lemma {:induction false} NoBlocking(issues: seq<Issue>)
    ensures BlockingOnly(issues) == [] <==> !IsBlocking(issues)
  {
    if issues != [] {
      var front, last := issues[..|issues| - 1], issues[|issues| - 1];
      NoBlocking(front);
      assert forall i | i in issues :: i in front || i == last;
    }
  }

  lemma BlockingGrows(a: seq<Issue>, b: seq<Issue>)
    ensures IsBlocking(a + b) <==> IsBlocking(a) || IsBlocking(b)
  {
    forall i ensures i in a + b <==> i in a || i in b {
    }
  }

  lemma KeysHoldMore(s: Store, h: ArticleLoop.Article, keys: seq<Key>, issues: seq<Issue>, n: nat, key: Key)
    requires KeysHold(s, h, keys, issues, n) && key in s.reviews && s.reviews[key].candidate == h && (key.Accepted? ==> key.calls <= n)
    ensures KeysHold(s, h, KeysWith(keys, key), issues + s.reviews[key].issues, n + 1)
  {
    hide IsBlocking;
    BlockingGrows(issues, s.reviews[key].issues);
  }

  lemma ReviewsMore(s: Store, keys: seq<Key>, more: seq<Key>)
    requires forall key | key in keys :: key in more
    ensures forall id | ReviewsSection(s, keys, id) :: ReviewsSection(s, more, id)
    ensures forall id | ReviewsSource(s, keys, id) :: ReviewsSource(s, more, id)
  {
  }

  /** The reviewed task leaves the pending list and is covered by its record instead. */
  lemma StillNotForgotten(env: Env, s: Store, h: ArticleLoop.Article, scopes: seq<Scope>, keys: seq<Key>, key: Key)
    requires NothingForgotten(env, s, h, scopes, keys) && key in s.reviews
    requires forall t | t in scopes && t.id == s.reviews[key].scope.id :: SameWork(t, s.reviews[key].scope)
    ensures NothingForgotten(env, s, h, Without(scopes, s.reviews[key].scope.id), KeysWith(keys, key))
  {
    var scope := s.reviews[key].scope;
    WithoutIs(scopes, scope.id);
    var left, more := Without(scopes, scope.id), KeysWith(keys, key);
    assert key in more;
    forall id | HasSection(scopes, id) ensures HasSection(left, id) || ReviewsSection(s, more, id) {
      var t :| t in scopes && !IsRelations(t) && id in t.sectionIds;
      assert t.id == scope.id ==> SameWork(t, scope);
    }
    forall id | HasSource(scopes, id) ensures HasSource(left, id) || ReviewsSource(s, more, id) {
      var t :| t in scopes && !IsRelations(t) && id in t.sourceIds;
      assert t.id == scope.id ==> SameWork(t, scope);
    }
    ReviewsMore(s, keys, more);
  }

  lemma TwinsAreSameWork(r: Reading, c: CoverageWork.Survey, scopes: seq<Scope>, scope: Scope)
    requires IsPending(r, c, scopes) && Identifies(r, c) && scopes != [] && SameWork(scopes[0], scope)
    ensures forall t | t in scopes && t.id == scope.id :: SameWork(t, scope)
  {
    hide IsPending, Identifies, IsDigest, IsTask, RelationsLast, OneFinal, AsksAtMostOnce;
    assert scopes[0] in scopes;
    PendingTask(r, c, scopes, scopes[0]);
    forall t | t in scopes && t.id == scope.id ensures SameWork(t, scope) {
      PendingTask(r, c, scopes, t);
      IdsIdentify(r, c, scopes[0], t);
    }
  }

  /** A review of the pending task `scope`, filed under its key. */
  ghost predicate IsFiled(env: Env, s: Store, l: Loop, scope: Scope, report: Report) {
    && ReviewsFirst(env, l, scope) && LoopSafe(env, s, l, s.calls)
    && var h := l.candidate.value;
      && IsComplete(scope, Asked(env, l, h, scope), |report.topics|, report.decisions)
      && var key := Accepted(h, scope.id, s.calls);
        key in s.reviews && s.reviews[key] == RecordOf(env, s, l, h, scope, report)
  }

  function LoopWith(env: Env, s: Store, l: Loop, scope: Scope, report: Report): Loop
    requires l.candidate.Some?
  {
    WithReview(l, Accepted(l.candidate.value, scope.id, s.calls), RecordOf(env, s, l, l.candidate.value, scope, report))
  }

  lemma FiledQuestions(env: Env, s: Store, l: Loop, scope: Scope, report: Report)
    requires IsFiled(env, s, l, scope, report)
    ensures var l1 := LoopWith(env, s, l, scope, report);
      && l1.questions == l.questions + Raised(false, s.calls, report.topics) && DistinctIds(l1.questions)
      && NamedBelow(l1.questions, s.calls + 1) && PlanSafe(env, l1)
  {
    hide CandidateSafe, PlanSafe, NamedBelow, AsksOnce, Without, Asked, IsComplete, QuestionId, HashIdentifies;
    var l1 := LoopWith(env, s, l, scope, report);
    PlanIsDistinct(env, l);
    RaisedAreDistinct(l.questions, false, s.calls, report.topics);
    MergedAppends(l.questions, Raised(false, s.calls, report.topics));
    PlanStays(env, l, l1);
  }

  lemma FiledKeys(env: Env, s: Store, l: Loop, scope: Scope, report: Report)
    requires IsFiled(env, s, l, scope, report)
    ensures var l1, key := LoopWith(env, s, l, scope, report), Accepted(l.candidate.value, scope.id, s.calls);
      && key !in l.keys && l1.keys == l.keys + [key] && KeysHold(s, l.candidate.value, l1.keys, l1.issues, s.calls + 1)
      && Decided(s, l1.keys) == Decided(s, l.keys) + if scope.global then report.decisions else []
  {
    hide IsWork, PlanSafe, NamedBelow, NothingForgotten, CoveragePlan.Ids, IsConcluded, AsksOnce, Without, Asked, IsComplete, Decided, IsBlocking, Merged;
    var h := l.candidate.value;
    var key := Accepted(h, scope.id, s.calls);
    KeysHoldMore(s, h, l.keys, l.issues, s.calls, key);
    DecidedMore(s, l.keys, key);
  }

  lemma FiledWork(env: Env, s: Store, l: Loop, scope: Scope, report: Report)
    requires IsFiled(env, s, l, scope, report)
    ensures var l1, h := LoopWith(env, s, l, scope, report), l.candidate.value;
      && IsWork(ReadingOf(env, l1, h), SurveyOf(env, l1, h), BacklogOf(l1)) && NothingForgotten(env, s, h, l1.scopes, l1.keys)
      && CoveragePlan.Ids(l1.scopes) + multiset(scope.coverageQuestionIds) == CoveragePlan.Ids(l.scopes)
      && (l1.scopes == [] ==> CoveragePlan.IsFinal(scope) && !HasLocal(l.scopes))
  {
    hide CanPlan, IsPending, PlanSafe, NamedBelow, NothingForgotten, CoveragePlan.Ids, IsConcluded, AsksOnce, Asked, IsComplete, Decided, IsBlocking, Merged, Without, Raised, Omissions, KeysHold, Identifies, CoveragePlan.IsFinal, HasLocal, HasSection, CoveragePlan.DistinctQuestions, DistinctIds;
    var h, l1 := l.candidate.value, LoopWith(env, s, l, scope, report);
    var r, c := ReadingOf(env, l, h), SurveyOf(env, l, h);
    WorkIdentifies(r, c, BacklogOf(l));
    WithoutIsPending(r, c, l.scopes, scope);
    TwinsAreSameWork(r, c, l.scopes, scope);
    StillNotForgotten(env, s, h, l.scopes, l.keys, Accepted(h, scope.id, s.calls));
    FiledQuestions(env, s, l, scope, report);
    assert AsksNoLess(l, l1);
    assert IsWork(r, c, BacklogOf(l1));
    WorkElsewhere(env, l, l1, h);
  }

  lemma FiledDecisions(env: Env, s: Store, l: Loop, scope: Scope, report: Report)
    requires IsFiled(env, s, l, scope, report)
    ensures DecidedIds(s, LoopWith(env, s, l, scope, report).keys) == DecidedIds(s, l.keys) + multiset(scope.coverageQuestionIds)
  {
    hide CanPlan, IsPending, PlanSafe, NamedBelow, NothingForgotten, CoveragePlan.Ids, IsConcluded, AsksOnce, Decided, IsBlocking, Merged, Without, Raised, Omissions, KeysHold, Identifies, CoveragePlan.IsFinal, HasLocal, HasSection, CoveragePlan.DistinctQuestions, DistinctIds, IsComplete, CoverageWork.Questions;
    var h := l.candidate.value;
    var r, c := ReadingOf(env, l, h), SurveyOf(env, l, h);
    WorkIdentifies(r, c, BacklogOf(l));
    FiledKeys(env, s, l, scope, report);
    DecisionIdsAppend(Decided(s, l.keys), if scope.global then report.decisions else []);
    if scope.global {
      TaskIsDecided(r, c, l.scopes, scope, |report.topics|, report.decisions);
    } else {
      LocalTaskAsksNothing(r, c, l.scopes, scope);
      assert DecisionIds([]) == [];
    }
  }

  lemma LocalTaskAsksNothing(r: Reading, c: CoverageWork.Survey, scopes: seq<Scope>, scope: Scope)
    requires IsPending(r, c, scopes) && scopes != [] && SameWork(scopes[0], scope) && !scope.global
    ensures scope.coverageQuestionIds == []
  {
    hide IsPending, IsDigest, IsAsked, RelationsLast, OneFinal, AsksAtMostOnce;
    assert scopes[0] in scopes;
    PendingTask(r, c, scopes, scopes[0]);
  }

  /** When the last task is done, it was the relations task, and nothing was left unasked. */
  lemma FiledLast(env: Env, s: Store, l: Loop, scope: Scope, report: Report)
    requires IsFiled(env, s, l, scope, report) && CoveragePlan.IsFinal(scope) && !HasLocal(l.scopes)
    ensures var l1 := LoopWith(env, s, l, scope, report);
      ReviewsRelations(s, l1.keys) && AsksOnce(SurveyOf(env, l1, l.candidate.value), l1.plan)
  {
    hide CandidateSafe, PlanSafe, NamedBelow, CoveragePlan.Ids, Asked, KeysHold, Decided, Without, Merged, Omissions, HasLocal, DistinctIds;
    var h, l1 := l.candidate.value, LoopWith(env, s, l, scope, report);
    FiledQuestions(env, s, l, scope, report);
    FiledKeys(env, s, l, scope, report);
    assert Raised(false, s.calls, report.topics) == [];
    assert l1.questions == l.questions;
    assert Accepted(h, scope.id, s.calls) in l1.keys;
  }

  lemma FiledIsBalanced(env: Env, s: Store, l: Loop, scope: Scope, report: Report)
    requires IsFiled(env, s, l, scope, report)
    ensures var l1 := LoopWith(env, s, l, scope, report);
      CoveragePlan.Ids(l1.scopes) + DecidedIds(s, l1.keys) == CoveragePlan.Ids(l1.plan)
  {
    hide IsWork, PlanSafe, NamedBelow, NothingForgotten, CoveragePlan.Ids, IsConcluded, ReviewsFirst, Asked, IsComplete, DecidedIds, Without, Merged, KeysHold, Omissions, Raised, IsBlocking, CoveragePlan.IsFinal, HasLocal;
    FiledWork(env, s, l, scope, report);
    FiledDecisions(env, s, l, scope, report);
    FiledHasCandidate(env, s, l, scope, report);
    var l1 := LoopWith(env, s, l, scope, report);
    forall id ensures (CoveragePlan.Ids(l1.scopes) + DecidedIds(s, l1.keys))[id] == CoveragePlan.Ids(l1.plan)[id] {
      assert (CoveragePlan.Ids(l1.scopes) + multiset(scope.coverageQuestionIds))[id] == CoveragePlan.Ids(l.scopes)[id];
      assert (CoveragePlan.Ids(l.scopes) + DecidedIds(s, l.keys))[id] == CoveragePlan.Ids(l.plan)[id];
    }
  }

  lemma FiledHasCandidate(env: Env, s: Store, l: Loop, scope: Scope, report: Report)
    requires IsFiled(env, s, l, scope, report)
    ensures l.candidate.Some? && CandidateSafe(env, s, l, l.candidate.value, s.calls)
  {
    hide CandidateSafe, PlanSafe, NamedBelow, Asked, IsComplete;
  }

  lemma AcceptSafe(env: Env, s: Store, l: Loop, scope: Scope, report: Report)
    requires IsFiled(env, s, l, scope, report)
    requires var a := Accept(env, s, l, scope, report); a.ok && AllMade(s, a.writes)
    ensures LoopSafe(env, s, Accept(env, s, l, scope, report).loop, s.calls + 1)
  {
    hide IsWork, PlanSafe, NamedBelow, NothingForgotten, CoveragePlan.Ids, AsksOnce, Asked, IsComplete, DecidedIds, KeysHold, CoveragePlan.IsFinal, HasLocal, BlockingOnly, WithReview, RecordOf, ReviewsRelations, IsFiled, DistinctIds;
    FiledHasCandidate(env, s, l, scope, report);
    var h, l1, a := l.candidate.value, LoopWith(env, s, l, scope, report), Accept(env, s, l, scope, report);
    WithReviewKeeps(l, Accepted(h, scope.id, s.calls), RecordOf(env, s, l, h, scope, report));
    FiledQuestions(env, s, l, scope, report);
    if a.loop.candidate.Some? {
      FiledKeys(env, s, l, scope, report);
      FiledWork(env, s, l, scope, report);
      FiledIsBalanced(env, s, l, scope, report);
      if l1.scopes == [] {
        FiledLast(env, s, l, scope, report);
        assert a.writes[1] == PutApproval(Approval(h, env.evidence(h), l.draftVersion, l1.keys)) && Has(s, a.writes[1]);
      }
    } else {
      PlanIsDistinct(env, l1);
      PlanStays(env, l1, a.loop);
    }
  }

  lemma WithReviewKeeps(l: Loop, key: Key, record: Record)
    ensures var l1 := WithReview(l, key, record);
      l1.candidate == l.candidate && l1.draftVersion == l.draftVersion && l1.plan == l.plan && l1.planned == l.planned
  {
    hide Merged, Without;
  }

  /** Complete reviews without a blocking finding reach every frame through the chapters. */
  lemma FramesFollow(env: Env, s: Store, h: ArticleLoop.Article, keys: seq<Key>, id: string)
    requires h.outline.sections != [] && id in ArticleFrames(h.outline)
    requires forall name | name in ReviewScopes.SectionIds(h.outline) :: ReviewsSection(s, keys, name)
    requires forall key | key in keys && key in s.reviews && !IsRelations(s.reviews[key].scope) :: HoldsFrames(h.outline, s.reviews[key].scope)
    ensures ReviewsFrame(s, keys, id)
  {
    hide ContentFrames;
    var k := ChapterOfFrame(h.outline, id);
    var name := ReviewScopes.SectionIds(h.outline)[k];
    assert name in ReviewScopes.SectionIds(h.outline);
    var key :| key in keys && key in s.reviews && !IsRelations(s.reviews[key].scope) && name in s.reviews[key].scope.sectionIds;
  }

  lemma AllCovered(env: Env, s: Store, keys: seq<Key>, d: Decision)
    requires (forall key | key in keys :: key in s.reviews && RecordHonest(env, s, key) && !IsBlocking(s.reviews[key].issues)) && d in Decided(s, keys)
    ensures d.verdict == Covered
  {
    hide IsBlocking, IsRebinding, HoldsFrames;
    DecidedFrom(s, keys, |keys|, d);
  }

  lemma OnceDecided(s: Store, keys: seq<Key>, plan: seq<Scope>)
    requires DecidedIds(s, keys) <= CoveragePlan.Ids(plan) && AsksAtMostOnce(plan)
    ensures Distinct(DecisionIds(Decided(s, keys)))
  {
    hide CoveragePlan.Ids, Decided;
    forall id ensures DecidedIds(s, keys)[id] <= 1 {
      assert CoveragePlan.Ids(plan)[id] <= 1;
    }
    CountsOfDistinct(DecisionIds(Decided(s, keys)));
  }

  lemma HonestPasses(env: Env, s: Store, h: ArticleLoop.Article, key: Key)
    requires key in s.reviews && RecordHonest(env, s, key) && s.reviews[key].candidate == h && !IsBlocking(s.reviews[key].issues)
    ensures RecordPasses(env, s, h, key)
  {
    hide IsBlocking, HoldsFrames, IsComplete;
  }

  lemma NothingPending(id: string)
    ensures !HasSection([], id) && !HasSource([], id)
  {
  }

  /** Without pending work and without blocking issues, the reviews add up to an approval. */
  lemma CompleteIsEarned(env: Env, s: Store, h: ArticleLoop.Article, version: nat, keys: seq<Key>, issues: seq<Issue>, n: nat, plan: seq<Scope>)
    requires ValidatesWell(env, h) && env.valid(h) && h in s.candidates && RecordsHonest(env, s)
    requires KeysHold(s, h, keys, issues, n) && !IsBlocking(issues) && NothingForgotten(env, s, h, [], keys)
    requires ReviewsRelations(s, keys) && DecidedIds(s, keys) <= CoveragePlan.Ids(plan) && AsksAtMostOnce(plan)
    ensures IsEarned(env, s, Approval(h, env.evidence(h), version, keys))
  {
    hide RecordHonest, RecordPasses, HasSection, HasSource, ReviewsSection, ReviewsSource, ReviewsFrame, DecidedIds, CoveragePlan.Ids, IsBlocking, HoldsFrames, Decided, AsksAtMostOnce;
    forall key | key in keys ensures RecordHonest(env, s, key) && RecordPasses(env, s, h, key) && !IsBlocking(s.reviews[key].issues) {
      HonestPasses(env, s, h, key);
    }
    forall id ensures !HasSection([], id) && !HasSource([], id) {
      NothingPending(id);
    }
    forall id | id in ArticleFrames(h.outline) ensures ReviewsFrame(s, keys, id) {
      HonestHolds(env, s, h, keys);
      FramesFollow(env, s, h, keys, id);
    }
    OnceDecided(s, keys, plan);
    forall d | d in Decided(s, keys) ensures d.verdict == Covered {
      AllCovered(env, s, keys, d);
    }
  }

  lemma HonestHolds(env: Env, s: Store, h: ArticleLoop.Article, keys: seq<Key>)
    requires forall key | key in keys :: key in s.reviews && s.reviews[key].candidate == h && RecordHonest(env, s, key)
    ensures forall key | key in keys && key in s.reviews && !IsRelations(s.reviews[key].scope) :: HoldsFrames(h.outline, s.reviews[key].scope)
  {
    hide HoldsFrames, IsBlocking, IsComplete;
  }

  /** Approvals are written only when they are earned. */
  lemma AcceptEarns(env: Env, s: Store, l: Loop, scope: Scope, report: Report, k: nat)
    requires IsFaithful(env) && RecordsHonest(env, s) && IsFiled(env, s, l, scope, report)
    requires var ws := Accept(env, s, l, scope, report).writes; k < |ws| && ws[k].PutApproval?
    ensures IsEarned(env, s, Accept(env, s, l, scope, report).writes[k].approval)
  {
    hide IsWork, PlanSafe, NamedBelow, CoveragePlan.Ids, AsksOnce, Asked, IsComplete, DecidedIds, KeysHold, CoveragePlan.IsFinal, HasLocal, BlockingOnly, WithReview, RecordOf, ReviewsRelations, RecordsHonest, IsEarned, NothingForgotten, IsFiled, HashIdentifies, AsksAtMostOnce, IsConcluded;
    FiledHasCandidate(env, s, l, scope, report);
    var h, l1 := l.candidate.value, LoopWith(env, s, l, scope, report);
    WithReviewKeeps(l, Accepted(h, scope.id, s.calls), RecordOf(env, s, l, h, scope, report));
    FiledKeys(env, s, l, scope, report);
    FiledWork(env, s, l, scope, report);
    FiledIsBalanced(env, s, l, scope, report);
    assert l1.scopes == [] && BlockingOnly(l1.issues) == [] && k == 1;
    NoBlocking(l1.issues);
    FiledLast(env, s, l, scope, report);
    PlanAsksOnce(ReadingOf(env, l1, h), SurveyOf(env, l1, h), BacklogOf(l1));
    assert ValidatesWell(env, h);
    CompleteIsEarned(env, s, h, l.draftVersion, l1.keys, l1.issues, s.calls + 1, l1.plan);
  }

  lemma PlanAsksOnce(r: Reading, c: CoverageWork.Survey, w: Backlog)
    requires IsWork(r, c, w)
    ensures AsksAtMostOnce(w.plan)
  {
    hide IsPending, CoveragePlan.Ids, HasSection, IsTask, OneFinal, NamesLocalChapters, HasRelations, AsksAtMostOnce;
  }

  lemma FiledIsHonest(env: Env, s: Store, l: Loop, scope: Scope, report: Report, w: Write)
    requires ReviewsFirst(env, l, scope) && LoopSafe(env, s, l, s.calls) && w in Accept(env, s, l, scope, report).writes && w.PutReview?
    requires IsComplete(scope, Asked(env, l, l.candidate.value, scope), |report.topics|, report.decisions)
    ensures w.key == Accepted(l.candidate.value, scope.id, s.calls) && w.record == RecordOf(env, s, l, l.candidate.value, scope, report)
    ensures RecordHonest(env, Do(s, w), w.key)
  {
    hide BlockingOnly, WithReview, PlanSafe, NamedBelow, CoveragePlan.Ids, IsSound, AsksOnce, KeysHold, NothingForgotten, IsConcluded, DecidedIds, HoldsFrames, Asked, Omissions;
    OmissionsBlock(report.decisions);
    BlockingGrows(report.issues, Omissions(report.decisions));
    assert l.scopes[0] in l.scopes;
    FramesAlike(l.candidate.value.outline, l.scopes[0], scope);
  }

  lemma FramesAlike(a: ReviewMaterial.Article, s: Scope, t: Scope)
    requires SameWork(s, t) && s.frameIds == t.frameIds
    ensures IsRelations(s) == IsRelations(t) && (HoldsFrames(a, s) ==> HoldsFrames(a, t))
  {
    hide ContentFrames;
  }

  // ----- freezing a candidate

  ghost predicate IsRebound(s: Store, keys: seq<Key>, t: Scope) {
    exists key | key in keys :: key in s.reviews && s.reviews[key].scope == t
  }

  /** A planned scope is still pending, or a rebound review stands for it. */
  ghost predicate IsDealtWith(s: Store, r: Reuse, t: Scope) {
    t in r.pending || (!t.global && IsRebound(s, r.keys, t))
  }

  ghost predicate RebindsLocally(s: Store, keys: seq<Key>) {
    forall key | key in keys :: key in s.reviews && !s.reviews[key].scope.global
  }

  lemma NoKeysHold(s: Store, h: ArticleLoop.Article, m: nat)
    ensures KeysHold(s, h, [], [], m) && RebindsLocally(s, [])
  {
  }

  lemma ReuseFront(env: Env, s: Store, l: Loop, h: ArticleLoop.Article, scopes: seq<Scope>, n: nat)
    requires 0 < n <= |scopes| && ReuseFirst(env, s, l, h, scopes, n).ok && AllMade(s, ReuseFirst(env, s, l, h, scopes, n).writes)
    ensures ReuseFirst(env, s, l, h, scopes, n - 1).ok && AllMade(s, ReuseFirst(env, s, l, h, scopes, n - 1).writes)
  {
    hide Has, IsBlocking;
    var r, front := ReuseFirst(env, s, l, h, scopes, n), ReuseFirst(env, s, l, h, scopes, n - 1);
    assert forall i | 0 <= i < |front.writes| :: r.writes[i] == front.writes[i];
  }

  /** The last of the first `n` scopes: it stays pending, or a review with its very scope is rebound. */
  lemma ReuseLast(env: Env, s: Store, l: Loop, h: ArticleLoop.Article, scopes: seq<Scope>, n: nat)
    requires RecordsHonest(env, s)
    requires 0 < n <= |scopes| && ReuseFirst(env, s, l, h, scopes, n).ok && AllMade(s, ReuseFirst(env, s, l, h, scopes, n).writes)
    ensures var r, front, t := ReuseFirst(env, s, l, h, scopes, n), ReuseFirst(env, s, l, h, scopes, n - 1), scopes[n - 1];
      || (r.pending == front.pending + [t] && r.keys == front.keys)
      || (!t.global && r.pending == front.pending && var key := Reused(h, t.id);
            r.keys == KeysWith(front.keys, key) && key in s.reviews && s.reviews[key].scope == t && s.reviews[key].candidate == h && !IsBlocking(s.reviews[key].issues))
  {
    hide IsBlocking, HoldsFrames, IsComplete, IsRebinding;
    var r, front, scope := ReuseFirst(env, s, l, h, scopes, n), ReuseFirst(env, s, l, h, scopes, n - 1), scopes[n - 1];
    var material := Material(env.judged(h, scope), scope);
    if !scope.global && material in l.cache {
      var source, key := l.cache[material], Reused(h, scope.id);
      assert r.writes[|front.writes|].PutReview? && r.writes[|front.writes|].key == key && Has(s, r.writes[|front.writes|]);
      assert RecordHonest(env, s, source);
    }
  }

  lemma {:induction false} ReuseHolds(env: Env, s: Store, l: Loop, h: ArticleLoop.Article, scopes: seq<Scope>, n: nat, m: nat)
    requires RecordsHonest(env, s) && n <= |scopes|
    requires var r := ReuseFirst(env, s, l, h, scopes, n); r.ok && AllMade(s, r.writes)
    ensures var r := ReuseFirst(env, s, l, h, scopes, n); KeysHold(s, h, r.keys, [], m) && RebindsLocally(s, r.keys)
  {
    hide RecordsHonest, KeysHold, IsBlocking, AllMade, RebindsLocally;
    NoKeysHold(s, h, m);
    if n > 0 {
      var r, front, t := ReuseFirst(env, s, l, h, scopes, n), ReuseFirst(env, s, l, h, scopes, n - 1), scopes[n - 1];
      ReuseFront(env, s, l, h, scopes, n);
      ReuseHolds(env, s, l, h, scopes, n - 1, m);
      ReuseLast(env, s, l, h, scopes, n);
      if r.keys != front.keys {
        KeysHoldReused(s, h, front.keys, m, Reused(h, t.id));
      }
    }
  }

  lemma KeysHoldReused(s: Store, h: ArticleLoop.Article, keys: seq<Key>, m: nat, key: Key)
    requires KeysHold(s, h, keys, [], m) && RebindsLocally(s, keys) && key.Reused?
    requires key in s.reviews && !s.reviews[key].scope.global && s.reviews[key].candidate == h && !IsBlocking(s.reviews[key].issues)
    ensures KeysHold(s, h, KeysWith(keys, key), [], m) && RebindsLocally(s, KeysWith(keys, key))
  {
    hide IsBlocking;
  }

  lemma NothingReused(env: Env, s: Store, l: Loop, h: ArticleLoop.Article, scopes: seq<Scope>)
    ensures ReuseFirst(env, s, l, h, scopes, 0) == Reuse([], [], [], [], true) && CoveragePlan.IdsFirst(scopes, 0) == multiset{} && CoveragePlan.Ids([]) == multiset{}
  {
  }

  lemma DealtByPending(s: Store, front: Reuse, r: Reuse, t: Scope)
    requires r.pending == front.pending + [t] && r.keys == front.keys
    ensures IsDealtWith(s, r, t) && forall u | IsDealtWith(s, front, u) :: IsDealtWith(s, r, u)
  {
    hide IsRebound;
  }

  lemma DealtByKey(s: Store, front: Reuse, r: Reuse, t: Scope, key: Key)
    requires r.pending == front.pending && r.keys == KeysWith(front.keys, key) && !t.global && key in s.reviews && s.reviews[key].scope == t
    ensures IsDealtWith(s, r, t) && forall u | IsDealtWith(s, front, u) :: IsDealtWith(s, r, u)
  {
    hide IsRebound;
    ReboundMore(s, front.keys, key, t);
  }

  /** Every planned scope is dealt with; the pending ones keep their order and name what they named. */
  lemma {:induction false} ReuseSafe(env: Env, s: Store, l: Loop, h: ArticleLoop.Article, scopes: seq<Scope>, n: nat)
    requires RecordsHonest(env, s) && n <= |scopes|
    requires var r := ReuseFirst(env, s, l, h, scopes, n); r.ok && AllMade(s, r.writes)
    requires forall t | t in scopes && !t.global :: t.coverageQuestionIds == []
    ensures var r := ReuseFirst(env, s, l, h, scopes, n);
      && (forall t | t in r.pending :: t in scopes[..n]) && (forall i | 0 <= i < n :: IsDealtWith(s, r, scopes[i]))
      && CoveragePlan.Ids(r.pending) == CoveragePlan.IdsFirst(scopes, n)
  {
    hide RecordsHonest, IsBlocking, AllMade, CoveragePlan.Ids, CoveragePlan.IdsFirst, IsRebound, IsDealtWith, ReuseFirst, KeysWith;
    if n > 0 {
      var r, front, t := ReuseFirst(env, s, l, h, scopes, n), ReuseFirst(env, s, l, h, scopes, n - 1), scopes[n - 1];
      CoveragePlan.IdsStep(scopes, n);
      ReuseFront(env, s, l, h, scopes, n);
      ReuseSafe(env, s, l, h, scopes, n - 1);
      ReuseLast(env, s, l, h, scopes, n);
      TakeOneMore(scopes, n);
      if r.pending == front.pending + [t] && r.keys == front.keys {
        CoveragePlan.IdsSnoc(front.pending, t);
        DealtByPending(s, front, r, t);
      } else {
        assert t in scopes;
        DealtByKey(s, front, r, t, Reused(h, t.id));
      }
    } else {
      NothingReused(env, s, l, h, scopes);
    }
  }

  lemma ReboundMore(s: Store, keys: seq<Key>, key: Key, t: Scope)
    requires key in s.reviews && s.reviews[key].scope == t
    ensures IsRebound(s, KeysWith(keys, key), t)
    ensures forall u | IsRebound(s, keys, u) :: IsRebound(s, KeysWith(keys, key), u)
  {
    assert key in KeysWith(keys, key);
  }

  lemma {:induction false} LocalsDecideNothing(s: Store, keys: seq<Key>, n: nat)
    requires RebindsLocally(s, keys) && n <= |keys|
    ensures DecidedFirst(s, keys, n) == []
  {
    if n > 0 {
      LocalsDecideNothing(s, keys, n - 1);
      assert keys[n - 1] in keys;
    }
  }

  lemma NothingDecided(s: Store, keys: seq<Key>)
    requires RebindsLocally(s, keys)
    ensures DecidedIds(s, keys) == multiset{}
  {
    LocalsDecideNothing(s, keys, |keys|);
    assert DecisionIds([]) == [];
  }

  /** The relations task is never reused, so what is pending still ends with it. */
  lemma ReusePending(env: Env, s: Store, l: Loop, h: ArticleLoop.Article, scopes: seq<Scope>)
    requires RecordsHonest(env, s) && scopes != [] && OneFinal(scopes) && RelationsLast(scopes)
    requires var r := ReuseFirst(env, s, l, h, scopes, |scopes|); r.ok && AllMade(s, r.writes)
    requires forall t | t in scopes && !t.global :: t.coverageQuestionIds == []
    ensures var pending := ReuseFirst(env, s, l, h, scopes, |scopes|).pending; OneFinal(pending) && RelationsLast(pending)
  {
    hide RecordsHonest, IsBlocking, AllMade, OneFinal, CoveragePlan.Ids, ReuseFirst;
    var n := |scopes|;
    var front := ReuseFirst(env, s, l, h, scopes, n - 1);
    OthersAreNotFinal(scopes);
    ReuseFront(env, s, l, h, scopes, n);
    ReuseSafe(env, s, l, h, scopes, n - 1);
    ReuseLast(env, s, l, h, scopes, n);
    var pending := ReuseFirst(env, s, l, h, scopes, n).pending;
    assert pending == front.pending + [scopes[n - 1]];
    assert pending[..|pending| - 1] == front.pending;
    OnlyLastIsFinal(pending);
  }

  lemma FrozenIsCovered(env: Env, s: Store, h: ArticleLoop.Article, r: Reading, scopes: seq<Scope>, reuse: Reuse)
    requires CoversMaterial(r, scopes) && r.article == h.outline && r.transcript == env.transcript
    requires forall i | 0 <= i < |scopes| :: IsDealtWith(s, reuse, scopes[i])
    ensures NothingForgotten(env, s, h, reuse.pending, reuse.keys)
  {
    forall t | t in scopes ensures IsDealtWith(s, reuse, t) {
      var i :| 0 <= i < |scopes| && scopes[i] == t;
    }
    forall id | id in ReviewScopes.SectionIds(h.outline) ensures HasSection(reuse.pending, id) || ReviewsSection(s, reuse.keys, id) {
      var t :| t in scopes && !IsRelations(t) && id in t.sectionIds;
    }
    forall id | id in env.transcript ensures HasSource(reuse.pending, id) || ReviewsSource(s, reuse.keys, id) {
      var t :| t in scopes && !IsRelations(t) && id in t.sourceIds;
    }
  }

  lemma SoundLocals(r: Reading, c: CoverageWork.Survey, scopes: seq<Scope>)
    requires IsSound(r, c, scopes)
    ensures IsList(r, c, scopes) && OneFinal(scopes) && AsksAtMostOnce(scopes) && scopes != []
    ensures forall t | t in scopes && !t.global :: t.coverageQuestionIds == []
  {
    hide OneFinal, AsksAtMostOnce, IsDigest, IsAsked, NamesLocalChapters;
  }

  lemma PlannedIs(r: Reading, c: CoverageWork.Survey, scopes: seq<Scope>)
    requires IsPlanned(r, c, scopes)
    ensures IsSound(r, c, scopes) && RelationsLast(scopes) && (r.article.sections != [] ==> CoversMaterial(r, scopes))
    ensures Distinct(ReviewScopes.SectionIds(r.article)) ==> FramesWhole(r.article, scopes)
  {
    hide IsSound, RelationsLast, AsksOnce, CoversMaterial, FramesWhole;
  }

  lemma PendingOfPlan(r: Reading, c: CoverageWork.Survey, scopes: seq<Scope>, pending: seq<Scope>)
    requires IsSound(r, c, scopes) && FramesWhole(r.article, scopes) && (forall t | t in pending :: t in scopes)
    requires OneFinal(pending) && RelationsLast(pending) && CoveragePlan.Ids(pending) == CoveragePlan.Ids(scopes)
    ensures IsPending(r, c, pending)
  {
    hide IsTask, OneFinal, RelationsLast, CoveragePlan.Ids, HoldsFrames, NamesLocalChapters, HasRelations;
    forall id ensures CoveragePlan.Ids(pending)[id] <= 1 {
      assert CoveragePlan.Ids(scopes)[id] <= 1;
    }
  }

  lemma FrozenWork(r: Reading, c: CoverageWork.Survey, plan: seq<Scope>, scopes: seq<Scope>, pending: seq<Scope>)
    requires CanPlan(r, c, plan) && IsPlanned(r, c, scopes) && r.article.sections != [] && Distinct(ReviewScopes.SectionIds(r.article))
    requires (forall t | t in pending :: t in scopes) && OneFinal(pending) && RelationsLast(pending) && CoveragePlan.Ids(pending) == CoveragePlan.Ids(scopes)
    ensures IsWork(r, c, Backlog(pending, scopes))
  {
    hide IsSound, OneFinal, RelationsLast, CoveragePlan.Ids, FramesWhole, HasSection, IsPending, Identifies, CoveragePlan.DistinctQuestions, AsksOnce, HasSource;
    SoundIsNotEmpty(r, c, scopes);
    PendingOfPlan(r, c, scopes, pending);
  }

  /** What freezing needs of the loop that it starts from. */
  ghost predicate CanFreeze(env: Env, s: Store, l: Loop, n: nat) {
    IsFaithful(env) && RecordsHonest(env, s) && LoopSafe(env, s, l, n) && l.candidate.None? && AllIn(env.transcript, l.planned)
  }

  lemma FrozenIsSafe(env: Env, s: Store, l1: Loop, l2: Loop, scopes: seq<Scope>, n: nat)
    requires IsFaithful(env) && RecordsHonest(env, s) && PlanSafe(env, l1) && NamedBelow(l1.questions, n) && AllIn(env.transcript, l1.planned)
    requires var h := s.current.article;
      && env.valid(h) && h in s.candidates && env.plan(l1, h) == Some(scopes) && l1.candidate == Some(h) && l1.draftVersion == s.current.version
      && var r := ReuseFirst(env, s, l1, h, scopes, |scopes|);
        r.ok && AllMade(s, r.writes) && l2 == l1.(scopes := r.pending, plan := scopes, keys := r.keys, issues := r.issues)
    ensures LoopSafe(env, s, l2, n)
  {
    hide IsFaithful, RecordsHonest, KeysHold, NothingForgotten, IsBlocking, ReuseFirst, IsSound, AllMade, CoveragePlan.Ids, CanPlan, NamedBelow, RelationsLast, OneFinal, AsksOnce, RebindsLocally, DecidedIds, CoversMaterial, IsWork, IsDealtWith, FramesWhole, IsPlanned, AsksAtMostOnce;
    var h := s.current.article;
    var r, c, reuse := ReadingOf(env, l1, h), SurveyOf(env, l1, h), ReuseFirst(env, s, l1, h, scopes, |scopes|);
    PlannedWell(env, l1, h);
    PlannedIs(r, c, scopes);
    SoundLocals(r, c, scopes);
    ReuseHolds(env, s, l1, h, scopes, |scopes|, n);
    ReuseSafe(env, s, l1, h, scopes, |scopes|);
    ReusePending(env, s, l1, h, scopes);
    FrozenIsCovered(env, s, h, r, scopes, reuse);
    KeysHoldAnyway(s, h, reuse.keys, reuse.issues, n);
    NothingDecided(s, reuse.keys);
    AllFirst(scopes);
    FrozenWork(r, c, l1.plan, scopes, reuse.pending);
    PlanIsDistinct(env, l1);
    WorkElsewhere(env, l1, l2, h);
    WorkIdentifies(r, c, BacklogOf(l2));
    PlanElsewhere(env, l1, l2, h);
    LastIsThere(l2.scopes);
    assert l2.scopes != [];
    assert CoveragePlan.Ids(l2.scopes) + multiset{} == CoveragePlan.Ids(l2.plan);
  }

  lemma AllFirst(scopes: seq<Scope>)
    ensures CoveragePlan.IdsFirst(scopes, |scopes|) == CoveragePlan.Ids(scopes) && scopes[..|scopes|] == scopes
  {
  }

  lemma LastIsThere(scopes: seq<Scope>)
    requires RelationsLast(scopes)
    ensures scopes != []
  {
  }

  lemma PlannedWell(env: Env, l: Loop, h: ArticleLoop.Article)
    requires IsFaithful(env) && env.valid(h) && env.plan(l, h).Some? && PlanSafe(env, l)
    ensures h.outline.sections != [] && Distinct(ReviewScopes.SectionIds(h.outline))
    ensures CanPlan(ReadingOf(env, l, h), SurveyOf(env, l, h), l.plan) && IsPlanned(ReadingOf(env, l, h), SurveyOf(env, l, h), env.plan(l, h).value)
  {
    hide CanPlan, IsPlanned, HashIdentifies, ReadiesWell, SplitsWell, DressesWell;
    assert PlansWell(env, l, h) && ValidatesWell(env, h);
  }

  lemma KeysHoldAnyway(s: Store, h: ArticleLoop.Article, keys: seq<Key>, issues: seq<Issue>, n: nat)
    requires KeysHold(s, h, keys, [], n)
    ensures KeysHold(s, h, keys, issues, n)
  {
  }

  lemma FreezeSafe(env: Env, s: Store, l: Loop, expected: nat, n: nat)
    requires CanFreeze(env, s, l, n)
    requires var a := Freeze(env, s, l, expected); a.ok && AllMade(s, a.writes)
    ensures LoopSafe(env, s, Freeze(env, s, l, expected).loop, n)
  {
    hide IsFaithful, RecordsHonest, CandidateSafe, PlanSafe, NamedBelow, ReuseFirst;
    var a, h := Freeze(env, s, l, expected), s.current.article;
    PlanIsDistinct(env, l);
    PlanStays(env, l, l.(issues := a.loop.issues));
    if a.loop.candidate.Some? {
      var l1 := l.(candidate := Some(h), draftVersion := s.current.version, keys := [], issues := []);
      var scopes := env.plan(l1, h).value;
      var r := ReuseFirst(env, s, l1, h, scopes, |scopes|);
      assert a.writes == [PutCandidate(h)] + r.writes && Has(s, a.writes[0]);
      forall i | 0 <= i < |r.writes| ensures Has(s, r.writes[i]) {
        assert a.writes[i + 1] == r.writes[i];
      }
      PlanStays(env, l, l1);
      FrozenIsSafe(env, s, l1, a.loop, scopes, n);
    }
  }

  // ----- a whole turn

  /** Loops that differ in counters and feedback only. */
  ghost predicate SameState(l: Loop, l': Loop) {
    && l'.candidate == l.candidate && l'.draftVersion == l.draftVersion && l'.scopes == l.scopes && l'.plan == l.plan
    && l'.questions == l.questions && l'.keys == l.keys && l'.issues == l.issues && l'.planned == l.planned
  }

  lemma SafeAlike(env: Env, s: Store, l: Loop, l': Loop, n: nat)
    requires LoopSafe(env, s, l, n) && SameState(l, l')
    ensures LoopSafe(env, s, l', n)
  {
    hide PlanSafe, NamedBelow, KeysHold, NothingForgotten, CoveragePlan.Ids, IsWork, DecidedIds, ReviewsRelations;
    PlanIsDistinct(env, l);
    PlanStays(env, l, l');
    if l.candidate.Some? {
      assert BacklogOf(l') == BacklogOf(l);
      WorkElsewhere(env, l, l', l.candidate.value);
    }
  }

  lemma FirstAlike(env: Env, l: Loop, l': Loop, scope: Scope)
    requires ReviewsFirst(env, l, scope) && SameState(l, l')
    ensures ReviewsFirst(env, l', scope)
  {
    hide CoveragePlan.Ids, HasLocal;
  }

  lemma ActsAlike(env: Env, l: Loop, l': Loop, call: Call)
    requires ActsOn(env, l, call) && SameState(l, l')
    ensures ActsOn(env, l', call)
  {
    hide ReviewsFirst;
    match call.mode
    case Review(scope) => FirstAlike(env, l, l', scope);
    case Source =>
    case Author =>
  }

  lemma SafeLonger(env: Env, s: Store, l: Loop, n: nat)
    requires LoopSafe(env, s, l, n)
    ensures LoopSafe(env, s, l, n + 1)
  {
    hide PlanSafe, NamedBelow, NothingForgotten, CoveragePlan.Ids, IsWork, DecidedIds, IsConcluded, IsBlocking;
    NamedLonger(l.questions, n);
  }

  lemma SaveSafe(env: Env, s: Store, l: Loop, slot: nat, save: Save, n: nat)
    requires CanFreeze(env, s, l, n)
    requires var a := SaveAndFinish(env, s, l, slot, save); a.ok && AllMade(s, a.writes)
    ensures LoopSafe(env, s, SaveAndFinish(env, s, l, slot, save).loop, n)
  {
    hide IsFaithful, RecordsHonest, Freeze, PlanSafe, NamedBelow, CandidateSafe;
    var w, a := SaveDraft(env, s, slot, save), SaveAndFinish(env, s, l, slot, save);
    if w.receipt.Some? {
      var receipt := w.receipt.value;
      assert w.writes == [PutDraft(slot, receipt)];
      assert a.writes[0] == PutDraft(slot, receipt) && Has(s, a.writes[0]);
      assert AfterDraft(s, slot, receipt) == s;
      var l1 := if receipt.noop then l else l.(challenged := None, candidate := None, scopes := [], keys := [], draftVersion := 0);
      PlanIsDistinct(env, l);
      PlanStays(env, l, l1);
      if save.finish && !receipt.rejected {
        var f := Freeze(env, s, l1, s.current.version);
        assert a.writes == [PutDraft(slot, receipt)] + f.writes;
        forall i | 0 <= i < |f.writes| ensures Has(s, f.writes[i]) {
          assert a.writes[i + 1] == f.writes[i];
        }
        FreezeSafe(env, s, l1, s.current.version, n);
        SafeAlike(env, s, f.loop, a.loop, n);
      }
    }
  }

  lemma ReviseSafe(env: Env, s: Store, l: Loop, slot: nat, patch: Patch, n: nat)
    requires CanFreeze(env, s, l, n)
    requires var a := Revise(env, s, l, slot, patch); a.ok && AllMade(s, a.writes)
    ensures LoopSafe(env, s, Revise(env, s, l, slot, patch).loop, n)
  {
    hide IsFaithful, RecordsHonest, SaveAndFinish, LoopSafe;
    var planned := if slot in s.plans then Some(s.plans[slot])
                   else if s.current.version != patch.expected then None
                   else env.expand(s.current.article, patch);
    if planned.Some? {
      var a, b := Revise(env, s, l, slot, patch), SaveAndFinish(env, s, l, slot, planned.value);
      forall i | 0 <= i < |b.writes| ensures Has(s, b.writes[i]) {
        assert a.writes[i + 1] == b.writes[i];
      }
      SaveSafe(env, s, l, slot, planned.value, n);
    }
  }

  lemma DisputeSafe(env: Env, s: Store, l: Loop, expected: nat, answered: bool, n: nat)
    requires CanFreeze(env, s, l, n)
    requires var a := Dispute(env, s, l, expected, answered); a.ok && AllMade(s, a.writes)
    ensures LoopSafe(env, s, Dispute(env, s, l, expected, answered).loop, n)
  {
    hide IsFaithful, RecordsHonest, Freeze, LoopSafe;
    var h := s.current.article;
    var l1 := l.(disputes := l.disputes + {h}, challenged := Some(h));
    SafeAlike(env, s, l, l1, n);
    if Dispute(env, s, l, expected, answered) == Freeze(env, s, l1, expected) {
      FreezeSafe(env, s, l1, expected, n);
    }
  }

  lemma AdmittedIsFiled(env: Env, s: Store, l: Loop, scope: Scope, reply: Reply)
    requires LoopSafe(env, s, l, s.calls) && ReviewsFirst(env, l, scope) && IsAdmitted(env, l, scope, reply)
    requires Accept(env, s, l, scope, reply.report).writes != [] && Has(s, Accept(env, s, l, scope, reply.report).writes[0])
    ensures IsFiled(env, s, l, scope, reply.report)
  {
    hide LoopSafe, ReviewsFirst, WithReview, BlockingOnly, Asked, IsComplete, RecordOf;
  }

  lemma AcceptFiles(env: Env, s: Store, l: Loop, scope: Scope, report: Report)
    requires l.candidate.Some?
    ensures Accept(env, s, l, scope, report).writes != []
  {
    hide WithReview, BlockingOnly, RecordOf;
  }

  lemma SourceSafe(env: Env, s: Store, l: Loop, call: Call, topics: seq<Topic>, l1: Loop)
    requires LoopSafe(env, s, l, s.calls) && l.candidate.None?
    requires l1 == l.(planned := l1.planned, questions := l.questions + Raised(true, s.calls, topics))
    ensures LoopSafe(env, s, l1, s.calls + 1) && DistinctIds(l1.questions)
  {
    hide PlanSafe, NamedBelow, CandidateSafe, QuestionId;
    PlanIsDistinct(env, l);
    RaisedAreDistinct(l.questions, true, s.calls, topics);
    PlanStays(env, l, l1);
  }

  lemma ActSafe(env: Env, s: Store, l: Loop, call: Call, reply: Reply)
    requires IsFaithful(env) && RecordsHonest(env, s) && LoopSafe(env, s, l, s.calls) && ActsOn(env, l, call)
    requires var a := Act(env, s, l, call, reply); a.ok && AllMade(s, a.writes)
    ensures LoopSafe(env, s, Act(env, s, l, call, reply).loop, s.calls + 1)
  {
    hide IsFaithful, RecordsHonest, Freeze, SaveAndFinish, Revise, Dispute, Accept, LoopSafe, ReviewsFirst, IsAdmitted, AllMade, Counted;
    SafeLonger(env, s, l, s.calls);
    match call.mode
    case Source =>
      if reply.SourcePlan? {
        SourceSafe(env, s, l, call, reply.topics, Act(env, s, l, call, reply).loop);
      } else {
        SafeAlike(env, s, l, Act(env, s, l, call, reply).loop, s.calls + 1);
      }
    case Review(scope) =>
      if IsAdmitted(env, l, scope, reply) {
        ReviewedSafe(env, s, l, scope, reply);
      } else {
        SafeAlike(env, s, l, Act(env, s, l, call, reply).loop, s.calls + 1);
      }
    case Author =>
      var l1 := if l.issues != [] && CountsAsRepair(reply) then l.(repairActions := l.repairActions + 1) else l;
      SafeAlike(env, s, l, l1, s.calls + 1);
      match reply
      case SaveSections(save) => SaveSafe(env, s, l1, call.slot, save, s.calls + 1);
      case ReviseBlocks(patch) => ReviseSafe(env, s, l1, call.slot, patch, s.calls + 1);
      case Finish(expected) => FreezeSafe(env, s, l1, expected, s.calls + 1);
      case Challenge(expected, answered) => DisputeSafe(env, s, l1, expected, answered, s.calls + 1);
      case _ =>
  }

  lemma ReviewedSafe(env: Env, s: Store, l: Loop, scope: Scope, reply: Reply)
    requires LoopSafe(env, s, l, s.calls) && ReviewsFirst(env, l, scope) && IsAdmitted(env, l, scope, reply)
    requires var a := Accept(env, s, l, scope, reply.report); a.ok && AllMade(s, a.writes)
    ensures LoopSafe(env, s, Accept(env, s, l, scope, reply.report).loop, s.calls + 1)
  {
    hide LoopSafe, Accept, Asked, IsComplete, AsksOnce, HasLocal;
    AcceptFiles(env, s, l, scope, reply.report);
    AdmittedIsFiled(env, s, l, scope, reply);
    AcceptSafe(env, s, l, scope, reply.report);
  }

  /** Work that was split or refreshed: nothing is forgotten. */
  lemma ContinuedIsSafe(env: Env, s: Store, l: Loop, h: ArticleLoop.Article, w: Backlog, l': Loop, n: nat)
    requires LoopSafe(env, s, l, n) && l.candidate == Some(h) && l.scopes != []
    requires Continues(ReadingOf(env, l, h), SurveyOf(env, l, h), BacklogOf(l), w)
    requires SameState(l.(scopes := w.scopes, plan := w.plan), l')
    ensures LoopSafe(env, s, l', n) && l'.scopes != []
  {
    hide NamedBelow, KeysHold, IsWork, CoveragePlan.Ids, DecidedIds, IsConcluded, HasSection, HasSource, ReviewsSection, ReviewsSource;
    PlanIsDistinct(env, l);
    var r, c := ReadingOf(env, l, h), SurveyOf(env, l, h);
    assert BacklogOf(l') == w;
    WorkIdentifies(r, c, w);
    WorkElsewhere(env, l, l', h);
    PlanElsewhere(env, l, l', h);
    forall id ensures (CoveragePlan.Ids(l'.scopes) + DecidedIds(s, l'.keys))[id] == CoveragePlan.Ids(l'.plan)[id] {
      assert (CoveragePlan.Ids(w.scopes) + CoveragePlan.Ids(l.plan))[id] == (CoveragePlan.Ids(l.scopes) + CoveragePlan.Ids(w.plan))[id];
      assert (CoveragePlan.Ids(l.scopes) + DecidedIds(s, l.keys))[id] == CoveragePlan.Ids(l.plan)[id];
    }
  }

  lemma SplitWell(env: Env, l: Loop, h: ArticleLoop.Article, t: Scope)
    requires IsFaithful(env) && AtWork(env, l, h) && env.split(l, h, t).Some?
    ensures Continues(ReadingOf(env, l, h), SurveyOf(env, l, h), BacklogOf(l), env.split(l, h, t).value)
  {
    hide Continues, AtWork, HashIdentifies, PlansWell, ReadiesWell, DressesWell, ValidatesWell;
    assert SplitsWell(env, l, h, t);
  }

  lemma CandidateAtWork(env: Env, s: Store, l: Loop, n: nat)
    requires LoopSafe(env, s, l, n) && l.candidate.Some? && l.scopes != []
    ensures s.current.article == l.candidate.value && AtWork(env, l, l.candidate.value)
  {
    hide IsWork, PlanSafe, NamedBelow, KeysHold, NothingForgotten, CoveragePlan.Ids, DecidedIds, IsConcluded;
  }

  lemma RecoverSafe(env: Env, s: Store, l: Loop, call: Call, n: nat)
    requires IsFaithful(env) && LoopSafe(env, s, l, n) && ActsOn(env, l, call) && Recover(env, s, l, call).ok
    ensures LoopSafe(env, s, Recover(env, s, l, call).loop, n)
  {
    hide IsFaithful, LoopSafe, Continues, AtWork, AsksOnce, HasLocal, SameWork;
    match call.mode
    case Source =>
    case Author => SafeAlike(env, s, l, Recover(env, s, l, call).loop, n);
    case Review(scope) =>
      var h := l.candidate.value;
      CandidateAtWork(env, s, l, n);
      SplitWell(env, l, h, scope);
      ContinuedIsSafe(env, s, l, h, env.split(l, h, scope).value, Recover(env, s, l, call).loop, n);
  }

  lemma TurnSafe(env: Env, s: Store, call: Call, reply: Reply)
    requires IsFaithful(env) && RecordsHonest(env, s) && LoopSafe(env, s, s.loop, s.calls) && ActsOn(env, s.loop, call)
    requires var a := Turn(env, s, call, reply); a.ok && AllMade(s, a.writes)
    ensures LoopSafe(env, s, Turn(env, s, call, reply).loop, s.calls + 1) && Turn(env, s, call, reply).loop.pending.None?
  {
    hide IsFaithful, RecordsHonest, Act, AllMade, Recover, LoopSafe, ActsOn;
    var l := s.loop.(read := s.loop.read + Elements(call.sources));
    var a := Turn(env, s, call, reply);
    if reply.Truncated? || reply.TooLarge? {
      RecoverSafe(env, s, s.loop, call, s.calls);
      SafeLonger(env, s, Recover(env, s, s.loop, call).loop, s.calls);
      SafeAlike(env, s, Recover(env, s, s.loop, call).loop, a.loop, s.calls + 1);
    } else {
      SafeAlike(env, s, s.loop, l, s.calls);
      ActsAlike(env, s.loop, l, call);
      ActSafe(env, s, l, call, reply);
      SafeAlike(env, s, Act(env, s, l, call, reply).loop, a.loop, s.calls + 1);
    }
  }
}
