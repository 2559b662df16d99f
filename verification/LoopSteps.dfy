/** Every durable write of a worker keeps the safety of the loop (internal/investigator/article_loop.go). */
module LoopSteps {
  import opened Lists
  import opened Wrappers
  import opened ReviewMaterial
  import opened ReviewTasks
  import opened ReviewPlans
  import opened ReviewWork
  import opened ArticleLoop
  import opened LoopCoverage
  import opened LoopRecovery
  import opened LoopSafety
  import CoveragePlan
  import CoverageWork

  // ----- the writes of a turn

  lemma FreezeOnly(env: Env, s: Store, l: Loop, expected: nat)
    ensures forall i | 0 <= i < |Freeze(env, s, l, expected).writes| :: FreezesOnly(Freeze(env, s, l, expected).writes[i])
  {
    hide Freeze, FreezesOnly;
    FreezeWrites(env, s, l, expected);
  }

  lemma ReviseWrites(env: Env, s: Store, l: Loop, slot: nat, patch: Patch)
    ensures forall i | 0 <= i < |Revise(env, s, l, slot, patch).writes| ::
      var w := Revise(env, s, l, slot, patch).writes[i]; w.PutPlan? || w.PutDraft? || FreezesOnly(w)
  {
    hide SaveAndFinish;
    var planned := if slot in s.plans then Some(s.plans[slot])
                   else if s.current.version != patch.expected then None
                   else env.expand(s.current.article, patch);
    if planned.Some? {
      SaveWrites(env, s, l, slot, planned.value);
    }
  }

  /** Only an admitted review approves or files an original record. */
  lemma OnlyReviewsApprove(env: Env, s: Store, l: Loop, call: Call, reply: Reply, k: nat)
    requires k < |Act(env, s, l, call, reply).writes| && var w := Act(env, s, l, call, reply).writes[k]; w.PutApproval? || (w.PutReview? && w.key.Accepted?)
    ensures call.mode.Review? && reply.Reviewed? && IsAdmitted(env, l, call.mode.scope, reply)
    ensures Act(env, s, l, call, reply) == Accept(env, s, l, call.mode.scope, reply.report)
  {
    hide Freeze, SaveAndFinish, Revise, Accept, Asked, IsComplete;
    if call.mode.Author? {
      var l1 := if l.issues != [] && CountsAsRepair(reply) then l.(repairActions := l.repairActions + 1) else l;
      match reply
      case SaveSections(save) => SaveWrites(env, s, l1, call.slot, save);
      case ReviseBlocks(patch) => ReviseWrites(env, s, l1, call.slot, patch);
      case Finish(expected) => FreezeOnly(env, s, l1, expected);
      case Challenge(expected, answered) => FreezeOnly(env, s, l1.(disputes := l1.disputes + {s.current.article}, challenged := Some(s.current.article)), expected);
      case _ =>
    }
  }

  lemma OnlyAuthorsDraft(env: Env, s: Store, l: Loop, call: Call, reply: Reply, k: nat)
    requires k < |Act(env, s, l, call, reply).writes| && Act(env, s, l, call, reply).writes[k].PutDraft?
    ensures call.mode.Author?
  {
    hide Freeze, SaveAndFinish, Revise, Accept;
    if call.mode.Review? && reply.Reviewed? {
      AcceptWrites(env, s, l, call.mode.scope, reply.report);
    }
  }

  lemma AcceptOrder(env: Env, s: Store, l: Loop, scope: Scope, report: Report, k: nat)
    requires k < |Accept(env, s, l, scope, report).writes|
    ensures Accept(env, s, l, scope, report).writes[k].PutReview? ==> k == 0
    ensures Accept(env, s, l, scope, report).writes[k].PutApproval? ==> k == 1
  {
    hide WithReview, BlockingOnly, RecordOf;
  }

  /** The loop that a turn acts on has read what was delivered. */
  function Informed(l: Loop, call: Call): Loop {
    l.(read := l.read + Elements(call.sources))
  }

  lemma InformedIsSafe(env: Env, s: Store, call: Call, n: nat)
    requires LoopSafe(env, s, s.loop, n) && ActsOn(env, s.loop, call)
    ensures LoopSafe(env, s, Informed(s.loop, call), n) && ActsOn(env, Informed(s.loop, call), call)
  {
    hide LoopSafe, ActsOn;
    SafeAlike(env, s, s.loop, Informed(s.loop, call), n);
    ActsAlike(env, s.loop, Informed(s.loop, call), call);
  }

  lemma TurnEarns(env: Env, s: Store, call: Call, reply: Reply, k: nat)
    requires IsFaithful(env) && RecordsHonest(env, s) && LoopSafe(env, s, s.loop, s.calls) && ActsOn(env, s.loop, call)
    requires var ws := Turn(env, s, call, reply).writes; k < |ws| && ws[k].PutApproval? && forall j | 0 <= j < k :: Has(s, ws[j])
    ensures IsEarned(env, s, Turn(env, s, call, reply).writes[k].approval)
  {
    hide IsFaithful, RecordsHonest, LoopSafe, Accept, IsEarned, Has, ReviewsFirst, Act, Recover, IsAdmitted, IsFiled;
    var l := Informed(s.loop, call);
    NoWritesInRecovery(env, s, s.loop, call);
    InformedIsSafe(env, s, call, s.calls);
    OnlyReviewsApprove(env, s, l, call, reply, k);
    AcceptOrder(env, s, l, call.mode.scope, reply.report, k);
    AdmittedIsFiled(env, s, l, call.mode.scope, reply);
    AcceptEarns(env, s, l, call.mode.scope, reply.report, k);
  }

  lemma {:induction false} ReusedAre(env: Env, s: Store, l: Loop, h: ArticleLoop.Article, scopes: seq<Scope>, n: nat, w: Write)
    requires RecordsHonest(env, s) && n <= |scopes| && w in ReuseFirst(env, s, l, h, scopes, n).writes
    ensures w.PutReview? && w.key.Reused? && w.record.candidate == h && w.record.evidence == env.evidence(h)
    ensures w.record.scope in scopes[..n] && w.record.material == Material(env.judged(h, w.record.scope), w.record.scope)
    ensures !w.record.scope.global && w.record.reusedFrom.Some? && w.record.reusedFrom.value in s.reviews && w.record.reusedFrom.value.Accepted?
    ensures w.record == s.reviews[w.record.reusedFrom.value].(candidate := h, evidence := env.evidence(h), reusedFrom := w.record.reusedFrom)
  {
    hide IsBlocking, HoldsFrames, IsComplete, IsRebinding;
    TakeOneMore(scopes, n);
    var front := ReuseFirst(env, s, l, h, scopes, n - 1);
    if w in front.writes {
      ReusedAre(env, s, l, h, scopes, n - 1, w);
    } else {
      var scope := scopes[n - 1];
      var source := l.cache[Material(env.judged(h, scope), scope)];
      assert RecordHonest(env, s, source);
    }
  }

  /** A review that freezing files is the rebinding of an honest one with complete frames. */
  ghost predicate Rebinds(env: Env, s: Store, w: Write) {
    && w.PutReview? && w.key.Reused? && w.record.reusedFrom.Some? && w.record.reusedFrom.value in s.reviews && w.record.reusedFrom.value.Accepted?
    && var h := w.record.candidate;
      && !w.record.scope.global && w.record.evidence == env.evidence(h) && w.record.material == Material(env.judged(h, w.record.scope), w.record.scope)
      && HoldsFrames(h.outline, w.record.scope)
      && w.record == s.reviews[w.record.reusedFrom.value].(candidate := h, evidence := env.evidence(h), reusedFrom := w.record.reusedFrom)
  }

  lemma FrozenRebinds(env: Env, s: Store, l: Loop, expected: nat, w: Write, n: nat)
    requires CanFreeze(env, s, l, n) && w in Freeze(env, s, l, expected).writes && w.PutReview?
    ensures Rebinds(env, s, w)
  {
    hide IsFaithful, RecordsHonest, CandidateSafe, PlanSafe, NamedBelow, ReuseFirst, HoldsFrames, IsPlanned, CanPlan, IsSound, RelationsLast, CoversMaterial;
    var h := s.current.article;
    var l1 := l.(candidate := Some(h), draftVersion := s.current.version, keys := [], issues := []);
    var scopes := env.plan(l1, h).value;
    assert w in ReuseFirst(env, s, l1, h, scopes, |scopes|).writes;
    ReusedAre(env, s, l1, h, scopes, |scopes|, w);
    PlanIsDistinct(env, l);
    PlanStays(env, l, l1);
    PlannedWell(env, l1, h);
    PlannedIs(ReadingOf(env, l1, h), SurveyOf(env, l1, h), scopes);
    assert scopes[..|scopes|] == scopes;
  }

  lemma SavedRebinds(env: Env, s: Store, l: Loop, slot: nat, save: Save, w: Write, n: nat)
    requires CanFreeze(env, s, l, n) && w in SaveAndFinish(env, s, l, slot, save).writes && w.PutReview?
    ensures Rebinds(env, s, w)
  {
    hide IsFaithful, RecordsHonest, Freeze, CandidateSafe, PlanSafe, NamedBelow, Rebinds;
    var d := SaveDraft(env, s, slot, save);
    var receipt := d.receipt.value;
    var l1 := if receipt.noop then l else l.(challenged := None, candidate := None, scopes := [], keys := [], draftVersion := 0);
    var s1 := AfterDraft(s, slot, receipt);
    PlanIsDistinct(env, l);
    PlanStays(env, l, l1);
    SameReviewsHonest(env, s, s1);
    FrozenRebinds(env, s1, l1, s1.current.version, w, n);
    SameRebinding(env, s1, s, w);
  }

  lemma SameRebinding(env: Env, s: Store, t: Store, w: Write)
    requires Rebinds(env, s, w) && s.reviews == t.reviews
    ensures Rebinds(env, t, w)
  {
    hide HoldsFrames;
  }

  lemma SameReviewsHonest(env: Env, s: Store, t: Store)
    requires RecordsHonest(env, s) && t.reviews == s.reviews
    ensures RecordsHonest(env, t)
  {
    hide IsComplete, IsBlocking, HoldsFrames;
    forall key | key in t.reviews ensures RecordHonest(env, t, key) {
      assert RecordHonest(env, s, key);
    }
  }

  lemma RevisedRebinds(env: Env, s: Store, l: Loop, slot: nat, patch: Patch, w: Write, n: nat)
    requires CanFreeze(env, s, l, n) && w in Revise(env, s, l, slot, patch).writes && w.PutReview?
    ensures Rebinds(env, s, w)
  {
    hide CanFreeze, SaveAndFinish, Rebinds;
    var planned := if slot in s.plans then Some(s.plans[slot])
                   else if s.current.version != patch.expected then None
                   else env.expand(s.current.article, patch);
    SavedRebinds(env, s, l, slot, planned.value, w, n);
  }

  lemma ActRebinds(env: Env, s: Store, l: Loop, call: Call, reply: Reply, k: nat)
    requires IsFaithful(env) && RecordsHonest(env, s) && LoopSafe(env, s, l, s.calls) && ActsOn(env, l, call)
    requires k < |Act(env, s, l, call, reply).writes| && var w := Act(env, s, l, call, reply).writes[k]; w.PutReview? && w.key.Reused?
    ensures Rebinds(env, s, Act(env, s, l, call, reply).writes[k])
  {
    hide IsFaithful, RecordsHonest, LoopSafe, Freeze, SaveAndFinish, Revise, Accept, IsAdmitted, Rebinds, ReviewsFirst;
    var w := Act(env, s, l, call, reply).writes[k];
    assert w in Act(env, s, l, call, reply).writes;
    if call.mode.Review? {
      ReviewFilesAccepted(env, s, l, call, reply, k);
    } else {
      var l1 := if l.issues != [] && CountsAsRepair(reply) then l.(repairActions := l.repairActions + 1) else l;
      SafeAlike(env, s, l, l1, s.calls);
      match reply
      case SaveSections(save) => SavedRebinds(env, s, l1, call.slot, save, w, s.calls);
      case ReviseBlocks(patch) => RevisedRebinds(env, s, l1, call.slot, patch, w, s.calls);
      case Finish(expected) => FrozenRebinds(env, s, l1, expected, w, s.calls);
      case Challenge(expected, answered) =>
        var l2 := l1.(disputes := l1.disputes + {s.current.article}, challenged := Some(s.current.article));
        SafeAlike(env, s, l1, l2, s.calls);
        FrozenRebinds(env, s, l2, expected, w, s.calls);
      case _ =>
    }
  }

  lemma ReviewFilesAccepted(env: Env, s: Store, l: Loop, call: Call, reply: Reply, k: nat)
    requires call.mode.Review? && k < |Act(env, s, l, call, reply).writes| && Act(env, s, l, call, reply).writes[k].PutReview?
    ensures Act(env, s, l, call, reply).writes[k].key.Accepted?
  {
    hide WithReview, BlockingOnly, RecordOf, IsAdmitted;
  }

  lemma ReboundIsHonest(env: Env, s: Store, w: Write)
    requires RecordsHonest(env, s) && Rebinds(env, s, w)
    ensures RecordHonest(env, Do(s, w), w.key)
  {
    hide IsBlocking, HoldsFrames;
    assert RecordHonest(env, s, w.record.reusedFrom.value);
  }

  /** Every review that a turn files is honest. */
  lemma TurnIsHonest(env: Env, s: Store, call: Call, reply: Reply, k: nat, w: Write)
    requires IsFaithful(env) && RecordsHonest(env, s) && LoopSafe(env, s, s.loop, s.calls) && ActsOn(env, s.loop, call)
    requires w.PutReview? && k < |Turn(env, s, call, reply).writes| && Turn(env, s, call, reply).writes[k] == w
    ensures RecordHonest(env, Do(s, w), w.key)
  {
    hide IsFaithful, RecordsHonest, LoopSafe, Act, Recover, ReviewsFirst, Rebinds, Accept, RecordHonest, Do;
    var l := Informed(s.loop, call);
    NoWritesInRecovery(env, s, s.loop, call);
    InformedIsSafe(env, s, call, s.calls);
    if w.key.Accepted? {
      OnlyReviewsApprove(env, s, l, call, reply, k);
      assert w in Accept(env, s, l, call.mode.scope, reply.report).writes;
      AdmittedIsComplete(env, l, call.mode.scope, reply);
      FiledIsHonest(env, s, l, call.mode.scope, reply.report, w);
    } else {
      ActRebinds(env, s, l, call, reply, k);
      ReboundIsHonest(env, s, w);
    }
  }

  lemma AdmittedIsComplete(env: Env, l: Loop, scope: Scope, reply: Reply)
    requires IsAdmitted(env, l, scope, reply)
    ensures l.candidate.Some? && IsComplete(scope, Asked(env, l, l.candidate.value, scope), |reply.report.topics|, reply.report.decisions)
  {
    hide IsComplete, Asked;
  }

  // ----- one durable write

  lemma WriteGrows(s: Store, w: Write)
    requires !Has(s, w) && !Conflicts(s, w)
    ensures Grows(s, Do(s, w))
  {
  }

  lemma HonestStay(env: Env, s: Store, t: Store)
    requires RecordsHonest(env, s) && Grows(s, t)
    requires forall key | key in t.reviews && key !in s.reviews :: RecordHonest(env, t, key)
    ensures RecordsHonest(env, t)
  {
    hide RecordHonest, Grows;
    forall key | key in t.reviews ensures RecordHonest(env, t, key) {
      if key in s.reviews {
        HonestGrows(env, s, t, key);
      }
    }
  }

  lemma EarnedStay(env: Env, s: Store, t: Store)
    requires ApprovalsEarned(env, s) && Grows(s, t) && forall h | h in t.approvals :: h in s.approvals && t.approvals[h] == s.approvals[h]
    ensures ApprovalsEarned(env, t)
  {
    hide IsEarned, Grows;
    forall h | h in t.approvals ensures t.approvals[h].candidate == h && IsEarned(env, t, t.approvals[h]) {
      EarnedGrows(env, s, t, s.approvals[h]);
    }
  }

  lemma TurnSafeGrows(env: Env, s: Store, t: Store)
    requires TurnIsSafe(env, s) && Grows(s, t) && t.current == s.current && t.loop == s.loop && t.calls == s.calls && t.turns == s.turns
    ensures TurnIsSafe(env, t)
  {
    hide LoopSafe, Grows;
    if s.loop.pending.Some? && s.loop.pending.value.slot in s.turns {
      SafeGrows(env, s, t, s.turns[s.loop.pending.value.slot], s.calls + 1);
    }
  }

  /** What a write leaves alone. */
  lemma PlainWrite(s: Store, w: Write)
    requires w.PutInput? || w.PutReply? || w.PutSources? || w.PutPlan? || w.PutCandidate? || w.PutReview?
    ensures var t := Do(s, w);
      && t.current == s.current && t.loop == s.loop && t.calls == s.calls && t.turns == s.turns && t.approvals == s.approvals && t.published == s.published
      && forall key | key in t.reviews && key !in s.reviews :: w.PutReview? && w.key == key
  {
  }

  /** Writes that add to the record and change nothing that the invariant speaks about otherwise. */
  lemma PlainWriteIsSafe(env: Env, s: Store, w: Write)
    requires IsSafe(env, s) && s.published.None? && !Has(s, w) && !Conflicts(s, w)
    requires w.PutInput? || w.PutReply? || w.PutSources? || w.PutPlan? || w.PutCandidate? || w.PutReview?
    requires w.PutReview? ==> RecordHonest(env, Do(s, w), w.key)
    ensures IsSafe(env, Do(s, w))
  {
    hide LoopSafe, ActsOn, Grows, Gate, TurnIsSafe, RecordsHonest, ApprovalsEarned, Do, Has, Conflicts, RecordHonest;
    var t := Do(s, w);
    WriteGrows(s, w);
    PlainWrite(s, w);
    SafeGrows(env, s, t, s.loop, Dated(s));
    TurnSafeGrows(env, s, t);
    HonestStay(env, s, t);
    EarnedStay(env, s, t);
  }

  lemma DraftIsSafe(env: Env, s: Store, w: Write)
    requires IsSafe(env, s) && s.published.None? && !Has(s, w) && !Conflicts(s, w)
    requires w.PutDraft? && s.loop.candidate.None? && IsOpen(s)
    ensures IsSafe(env, Do(s, w))
  {
    hide CandidateSafe, PlanSafe, NamedBelow, ActsOn, Grows, Gate, RecordsHonest, ApprovalsEarned, RecordHonest;
    var t := Do(s, w);
    WriteGrows(s, w);
    HonestStay(env, s, t);
    EarnedStay(env, s, t);
  }

  lemma ApprovalIsSafe(env: Env, s: Store, w: Write)
    requires IsSafe(env, s) && s.published.None? && !Has(s, w) && !Conflicts(s, w)
    requires w.PutApproval? && IsEarned(env, s, w.approval)
    ensures IsSafe(env, Do(s, w))
  {
    hide LoopSafe, IsEarned, ActsOn, Grows, Gate, RecordsHonest, RecordHonest, TurnIsSafe;
    var t := Do(s, w);
    WriteGrows(s, w);
    SafeGrows(env, s, t, s.loop, Dated(s));
    TurnSafeGrows(env, s, t);
    HonestStay(env, s, t);
    forall h | h in t.approvals ensures t.approvals[h].candidate == h && IsEarned(env, t, t.approvals[h]) {
      EarnedGrows(env, s, t, t.approvals[h]);
    }
  }

  lemma SameGrows(s: Store, t: Store)
    requires t.candidates == s.candidates && t.reviews == s.reviews && t.approvals == s.approvals
    ensures Grows(s, t)
  {
  }

  lemma TurnWriteIsSafe(env: Env, s: Store, w: Write)
    requires IsSafe(env, s) && s.published.None? && w.PutTurn? && IsOpen(s) && w.slot == s.loop.pending.value.slot
    requires LoopSafe(env, s, w.loop, s.calls + 1) && w.loop.pending.None?
    ensures IsSafe(env, Do(s, w))
  {
    hide LoopSafe, ActsOn, Grows, Gate, RecordsHonest, ApprovalsEarned, RecordHonest;
    var t := Do(s, w);
    SameGrows(s, t);
    SafeGrows(env, s, t, s.loop, Dated(s));
    SafeGrows(env, s, t, w.loop, s.calls + 1);
    HonestStay(env, s, t);
    EarnedStay(env, s, t);
  }

  lemma CheckpointIsSafe(env: Env, s: Store, w: Write)
    requires IsSafe(env, s) && s.published.None? && w.PutCheckpoint?
    requires LoopSafe(env, s, w.loop, if w.loop.pending.Some? then w.calls else w.calls + 1)
    requires w.loop.pending.Some? ==> ActsOn(env, w.loop, w.loop.pending.value) && w.loop.pending.value.slot !in s.turns
    ensures IsSafe(env, Do(s, w))
  {
    hide LoopSafe, ActsOn, Grows, Gate, RecordsHonest, ApprovalsEarned, RecordHonest;
    var t := Do(s, w);
    SameGrows(s, t);
    SafeGrows(env, s, t, w.loop, Dated(t));
    HonestStay(env, s, t);
    EarnedStay(env, s, t);
  }

  lemma PublicationIsSafe(env: Env, s: Store, h: ArticleLoop.Article)
    requires IsSafe(env, s) && Gate(env, s, h) && s.published.None?
    ensures IsSafe(env, Do(s, PutPublished(h)))
  {
    hide LoopSafe, ActsOn, Grows, RecordsHonest, ApprovalsEarned, RecordHonest, TurnIsSafe, Gate;
    var t := Do(s, PutPublished(h));
    SameGrows(s, t);
    SafeGrows(env, s, t, s.loop, Dated(s));
    TurnSafeGrows(env, s, t);
    HonestStay(env, s, t);
    EarnedStay(env, s, t);
    GateLooksElsewhere(env, s, t, h);
  }

  lemma GateLooksElsewhere(env: Env, s: Store, t: Store, h: ArticleLoop.Article)
    requires t == s.(published := t.published) && Gate(env, s, h)
    ensures Gate(env, t, h)
  {
    hide RecordPasses, CoversQuestions, JudgesRelations;
    var keys := s.approvals[h].keys;
    SameQuestionsCovered(s, t, keys);
    forall key | key in keys ensures RecordPasses(env, t, h, key) {
      SameRecordPasses(env, s, t, h, key);
    }
  }

  lemma SameQuestionsCovered(s: Store, t: Store, keys: seq<Key>)
    requires t.reviews == s.reviews && t.sourcePlans == s.sourcePlans && t.loop == s.loop && CoversQuestions(s, keys)
    ensures CoversQuestions(t, keys)
  {
    SameStoreDecides(s, t, keys, |keys|);
    assert AllQuestions(t) == AllQuestions(s);
  }

  lemma SameRecordPasses(env: Env, s: Store, t: Store, h: ArticleLoop.Article, key: Key)
    requires t.reviews == s.reviews && RecordPasses(env, s, h, key)
    ensures RecordPasses(env, t, h, key)
  {
    hide IsComplete, IsBlocking;
  }

  lemma {:induction false} SameStoreDecides(s: Store, t: Store, keys: seq<Key>, n: nat)
    requires t.reviews == s.reviews && n <= |keys|
    ensures DecidedFirst(t, keys, n) == DecidedFirst(s, keys, n)
  {
    if n > 0 {
      SameStoreDecides(s, t, keys, n - 1);
    }
  }

  // ----- preparing a call

  lemma ReadyWell(env: Env, l: Loop, h: ArticleLoop.Article)
    requires IsFaithful(env) && AtWork(env, l, h) && env.ready(l, h).Some?
    ensures IsReadied(ReadingOf(env, l, h), SurveyOf(env, l, h), BacklogOf(l), env.ready(l, h).value)
  {
    hide IsReadied, AtWork, HashIdentifies, PlansWell, SplitsWell, DressesWell, ValidatesWell;
    assert ReadiesWell(env, l, h);
  }

  lemma DressWell(env: Env, l: Loop, h: ArticleLoop.Article, t: Scope)
    requires IsFaithful(env)
    ensures SameWork(t, env.dress(l, h, t)) && env.dress(l, h, t).frameIds == t.frameIds
  {
    hide AtWork, HashIdentifies, PlansWell, SplitsWell, ReadiesWell, ValidatesWell;
    assert DressesWell(env, l, h, t);
  }

  lemma ReadiedIs(r: Reading, c: CoverageWork.Survey, before: Backlog, after: Backlog)
    requires IsReadied(r, c, before, after)
    ensures Continues(r, c, before, after) && (HasLocal(after.scopes) || AsksOnce(c, after.plan))
  {
    hide Continues, HasLocal, AsksOnce;
  }

  lemma PlannedAlone(env: Env, s: Store, l: Loop, h: ArticleLoop.Article, n: nat)
    requires IsFaithful(env) && LoopSafe(env, s, l, n) && l.candidate.None? && env.plan(l, h).Some?
    ensures LoopSafe(env, s, l.(plan := env.plan(l, h).value), n)
  {
    hide CanPlan, IsPlanned, HashIdentifies, ReadiesWell, SplitsWell, DressesWell, CandidateSafe, NamedBelow, ValidatesWell;
    assert PlansWell(env, l, h) && CanPlan(ReadingOf(env, l, h), SurveyOf(env, l, h), l.plan);
    PlanIsDistinct(env, l);
    var l1 := l.(plan := env.plan(l, h).value);
    PlannedCanPlan(ReadingOf(env, l, h), SurveyOf(env, l, h), l.plan, l1.plan);
    PlanElsewhere(env, l, l1, h);
  }

  lemma PlannedCanPlan(r: Reading, c: CoverageWork.Survey, plan: seq<Scope>, planned: seq<Scope>)
    requires CanPlan(r, c, plan) && IsPlanned(r, c, planned)
    ensures CanPlan(r, c, planned)
  {
    hide IsSound, RelationsLast, AsksOnce, CoversMaterial, FramesWhole, Identifies;
  }

  lemma PrepareSafe(env: Env, s: Store)
    requires IsFaithful(env) && LoopSafe(env, s, s.loop, s.calls + 1) && Prepare(env, s).Some?
    requires s.loop.candidate.Some? ==> s.loop.candidate.value !in s.approvals
    ensures var p := Prepare(env, s).value;
      var l := p.loop.(pending := Some(p.call));
      LoopSafe(env, s, l, s.calls + 1) && ActsOn(env, l, p.call) && p.call.slot == s.calls
  {
    hide IsFaithful, CandidateSafe, PlanSafe, NamedBelow, Continues, AtWork, IsReadied, SameWork, AsksOnce, HasLocal;
    var l := s.loop;
    PendingRemains(env, s, l, s.calls + 1);
    var p := Prepare(env, s).value;
    var l' := p.loop.(pending := Some(p.call));
    if !AllIn(env.transcript, l.planned) {
      SafeAlike(env, s, l, l', s.calls + 1);
    } else if l.candidate.Some? {
      var h := l.candidate.value;
      CandidateAtWork(env, s, l, s.calls + 1);
      ReadyWell(env, l, h);
      var w := env.ready(l, h).value;
      ReadiedIs(ReadingOf(env, l, h), SurveyOf(env, l, h), BacklogOf(l), w);
      ContinuedIsSafe(env, s, l, h, w, l', s.calls + 1);
      DressWell(env, l, h, w.scopes[0]);
      SameAsked(env, l, l', h);
    } else {
      PlannedAlone(env, s, l, s.current.article, s.calls + 1);
      SafeAlike(env, s, l.(plan := env.plan(l, s.current.article).value), l', s.calls + 1);
    }
  }

  lemma SameAsked(env: Env, l: Loop, l': Loop, h: ArticleLoop.Article)
    requires l'.questions == l.questions
    ensures forall plan | AsksOnce(SurveyOf(env, l, h), plan) :: AsksOnce(SurveyOf(env, l', h), plan)
  {
    hide CoveragePlan.Ids;
  }

  /** A candidate that is not approved has pending tasks, and all sources are planned. */
  lemma PendingRemains(env: Env, s: Store, l: Loop, n: nat)
    requires LoopSafe(env, s, l, n) && l.candidate.Some? ==> l.candidate.value !in s.approvals
    requires LoopSafe(env, s, l, n)
    ensures l.candidate.Some? ==> l.scopes != [] && AllIn(env.transcript, l.planned)
  {
    hide PlanSafe, NamedBelow, KeysHold, IsWork, NothingForgotten, CoveragePlan.Ids, DecidedIds;
  }

  // ----- steps

  lemma WriteOfTurnIsSafe(env: Env, s: Store, call: Call, reply: Reply, k: nat)
    requires IsFaithful(env) && IsSafe(env, s) && IsOpen(s) && call == s.loop.pending.value && k < |Turn(env, s, call, reply).writes|
    requires var w := Turn(env, s, call, reply).writes[k]; !Has(s, w) && !Conflicts(s, w)
    requires forall j | 0 <= j < k :: Has(s, Turn(env, s, call, reply).writes[j])
    ensures IsSafe(env, Do(s, Turn(env, s, call, reply).writes[k]))
  {
    hide IsFaithful, LoopSafe, IsEarned, Act, Has, Conflicts, Do, RecordsHonest, TurnIsSafe, ApprovalsEarned, Recover, RecordHonest, ReviewsFirst;
    var l := Informed(s.loop, call);
    var w := Turn(env, s, call, reply).writes[k];
    NoWritesInRecovery(env, s, s.loop, call);
    assert w == Act(env, s, l, call, reply).writes[k];
    TurnMakes(env, s, call, reply);
    if w.PutApproval? {
      TurnEarns(env, s, call, reply, k);
      ApprovalIsSafe(env, s, w);
    } else if w.PutDraft? {
      OnlyAuthorsDraft(env, s, l, call, reply, k);
      DraftIsSafe(env, s, w);
    } else {
      if w.PutReview? {
        TurnIsHonest(env, s, call, reply, k, w);
      }
      PlainWriteIsSafe(env, s, w);
    }
  }

  lemma OpenStepIsSafe(env: Env, s: Store, k: nat)
    requires IsFaithful(env) && IsSafe(env, s) && IsOpen(s) && k < |Intended(env, s).writes|
    requires var w := Intended(env, s).writes[k]; !Has(s, w) && !Conflicts(s, w) && !w.PutCheckpoint?
    requires forall j | 0 <= j < k :: Has(s, Intended(env, s).writes[j])
    ensures IsSafe(env, Do(s, Intended(env, s).writes[k]))
  {
    hide IsFaithful, LoopSafe, IsEarned, Turn, Has, Conflicts, Do, Intended, RecordsHonest, ActsOn, TurnIsSafe, ApprovalsEarned;
    var a := TurnCourse(env, s);
    var call, ws, w := s.loop.pending.value, Intended(env, s).writes, Intended(env, s).writes[k];
    var reply := ReplyOf(env, s, call.slot);
    if k == 0 {
      PlainWriteIsSafe(env, s, w);
    } else if k <= |a.writes| {
      assert w == a.writes[k - 1];
      forall j | 0 <= j < k - 1 ensures Has(s, a.writes[j]) {
        assert ws[j + 1] == a.writes[j];
      }
      WriteOfTurnIsSafe(env, s, call, reply, k - 1);
    } else {
      assert k == |a.writes| + 1 && w == PutTurn(call.slot, a.loop);
      forall j | 0 <= j < |a.writes| ensures Has(s, a.writes[j]) {
        assert ws[j + 1] == a.writes[j];
      }
      TurnSafe(env, s, call, reply);
      TurnWriteIsSafe(env, s, w);
    }
  }

  lemma ClosedTurnIsSafe(env: Env, s: Store, w: Write)
    requires IsSafe(env, s) && s.published.None? && s.loop.pending.Some? && s.loop.pending.value.slot in s.turns
    requires w == PutCheckpoint(s.calls, s.turns[s.loop.pending.value.slot])
    ensures IsSafe(env, Do(s, w))
  {
    hide LoopSafe, ApprovalsEarned, RecordsHonest, Gate, Do, ActsOn;
    CheckpointIsSafe(env, s, w);
  }

  lemma OpenIsNoCheckpoint(env: Env, s: Store, k: nat)
    requires IsOpen(s) && k < |Intended(env, s).writes| && !Has(s, Intended(env, s).writes[k])
    requires forall j | 0 <= j < k :: Has(s, Intended(env, s).writes[j])
    ensures !Intended(env, s).writes[k].PutCheckpoint?
  {
    hide Turn, Intended;
    var a := TurnCourse(env, s);
    var ws := Intended(env, s).writes;
    assert k == |a.writes| + 2 ==> Has(s, ws[|a.writes| + 1]);
  }

  /** What a worker without an open turn may write. */
  lemma IdleCourse(env: Env, s: Store)
    requires !IsOpen(s) && Intended(env, s).writes != []
    ensures var ws := Intended(env, s).writes;
      && (s.loop.pending.Some? ==> s.loop.pending.value.slot in s.turns && ws == [PutCheckpoint(s.calls, s.turns[s.loop.pending.value.slot])])
      && (s.loop.pending.None? && ws[0].PutPublished? ==> |ws| == 1)
      && (s.loop.pending.None? && !ws[0].PutPublished? ==>
            && (s.loop.candidate.Some? ==> s.loop.candidate.value !in s.approvals) && s.calls < env.budget && Prepare(env, s).Some?
            && ws == Reserving(s, Prepare(env, s).value))
  {
    hide Turn, Gate, Prepare;
  }

  /** Freezing an input and reserving its slot. */
  function Reserving(s: Store, p: Prepared): seq<Write> {
    [PutInput(p.call), PutCheckpoint(s.calls + 1, p.loop.(pending := Some(p.call)))]
  }

  lemma PreparesNextSlot(env: Env, s: Store)
    ensures Prepare(env, s).Some? ==> Prepare(env, s).value.call.slot == s.calls
  {
  }

  lemma StepIsSafe(env: Env, s: Store)
    requires IsFaithful(env) && IsSafe(env, s) && s.calls !in s.turns
    ensures IsSafe(env, Step(env, s))
  {
    hide IsFaithful, LoopSafe, IsEarned, Turn, Has, Conflicts, Do, RecordsHonest, ActsOn, TurnIsSafe, ApprovalsEarned, Gate, Prepare;
    if RemainingWork(env, s) != [] {
      var k := FirstMissing(s, Intended(env, s).writes);
      var w := Intended(env, s).writes[k];
      if IsOpen(s) {
        OpenIsNoCheckpoint(env, s, k);
        OpenStepIsSafe(env, s, k);
      } else if s.loop.pending.Some? {
        ClosedTurnIsSafe(env, s, w);
      } else if w.PutPublished? {
        PublicationIsSafe(env, s, w.article);
      } else if w.PutInput? {
        PlainWriteIsSafe(env, s, w);
      } else {
        PrepareSafe(env, s);
        CheckpointIsSafe(env, s, w);
      }
    }
  }
}
