/** Whole runs of the article loop, with any crashes: the call ledger, immutable history,
    termination, and the safety of publication (internal/investigator/article_loop.go). */
module LoopRuns {
  import opened Wrappers
  import opened ArticleLoop
  import opened LoopCoverage
  import opened LoopRecovery
  import opened LoopSafety
  import opened LoopSteps
  import opened LoopQuestions
  import Lists
  import ReviewMaterial
  import ReviewPlans
  import ReviewTasks
  import ReviewScopes
  import ReviewWork
  import CoveragePlan

  // ----- the call ledger

  ghost predicate PendingIsReserved(s: Store) {
    s.loop.pending.Some? ==>
      var call := s.loop.pending.value;
      call.slot + 1 == s.calls && call.slot in s.inputs && s.inputs[call.slot] == call
  }

  /** Slots are reserved one by one within the budget; every reserved slot has one frozen input, and
      every one but the pending slot has one reply and one completed turn. */
  ghost predicate IsLedger(env: Env, s: Store) {
    && s.calls <= env.budget && PendingIsReserved(s)
    && (forall k: nat | k < s.calls :: k in s.inputs)
    && (forall k | k in s.inputs :: k <= s.calls && s.inputs[k].slot == k)
    && (forall k: nat | k < s.calls :: k in s.turns || (s.loop.pending.Some? && k == s.loop.pending.value.slot))
    && (forall k | k in s.turns :: k < s.calls && k in s.replies && s.turns[k].pending.None?)
    && (forall k | k in s.replies :: k < s.calls)
    && (forall k | k in s.receipts :: k < s.calls)
    && (forall k | k in s.plans :: k < s.calls)
  }

  /** The slots that changed the draft. */
  function Revisions(s: Store): set<nat> {
    set k | k in s.receipts && !s.receipts[k].noop
  }

  /** The draft version counts the revisions, one at most for each slot. */
  ghost predicate DraftsCounted(s: Store) {
    s.current.version == |Revisions(s)| && s.current.version <= REVISIONS
  }

  lemma SlotsOfSave(env: Env, s: Store, l: Loop, slot: nat, save: Save)
    ensures forall w | w in SaveAndFinish(env, s, l, slot, save).writes :: !w.PutPlan? && (w.PutDraft? ==> IsNextDraft(s, slot, w))
  {
    hide Freeze;
    var d, a := SaveDraft(env, s, slot, save), SaveAndFinish(env, s, l, slot, save);
    SaveWrites(env, s, l, slot, save);
    forall w | w in a.writes ensures !w.PutPlan? && (w.PutDraft? ==> IsNextDraft(s, slot, w)) {
      var i :| 0 <= i < |a.writes| && a.writes[i] == w;
      if w.PutDraft? {
        assert w == a.writes[0] && w in d.writes;
      }
    }
  }

  /** A draft write either replays the slot's receipt or moves the draft on by at most one version. */
  ghost predicate IsNextDraft(s: Store, slot: nat, w: Write)
    requires w.PutDraft?
  {
    && w.slot == slot
    && (slot in s.receipts ==> w.receipt == s.receipts[slot])
    && (slot !in s.receipts ==>
          && (w.receipt.noop ==> w.receipt.draft == s.current)
          && (!w.receipt.noop ==> w.receipt.draft.version == s.current.version + 1 <= REVISIONS))
  }

  lemma SlotsOfRevise(env: Env, s: Store, l: Loop, slot: nat, patch: Patch)
    ensures forall w | w in Revise(env, s, l, slot, patch).writes :: (w.PutPlan? ==> w.slot == slot) && (w.PutDraft? ==> IsNextDraft(s, slot, w))
  {
    hide SaveAndFinish;
    var planned := if slot in s.plans then Some(s.plans[slot])
                   else if s.current.version != patch.expected then None
                   else env.expand(s.current.article, patch);
    if planned.Some? {
      SlotsOfSave(env, s, l, slot, planned.value);
    }
  }

  ghost predicate KeepsSlots(s: Store, slot: nat, w: Write) {
    (w.PutPlan? ==> w.slot == slot) && (w.PutDraft? ==> IsNextDraft(s, slot, w))
  }

  lemma FreezeKeepsSlots(env: Env, s: Store, l: Loop, expected: nat, slot: nat)
    ensures forall w | w in Freeze(env, s, l, expected).writes :: KeepsSlots(s, slot, w)
  {
    hide Freeze;
    FreezeWrites(env, s, l, expected);
  }

  lemma SlotsOfAct(env: Env, s: Store, l: Loop, call: Call, reply: Reply)
    ensures forall w | w in Act(env, s, l, call, reply).writes :: KeepsSlots(s, call.slot, w)
  {
    hide Freeze, SaveAndFinish, Revise, Accept, IsNextDraft;
    if call.mode.Review? && reply.Reviewed? {
      AcceptWrites(env, s, l, call.mode.scope, reply.report);
    } else if call.mode.Author? {
      var l1 := if l.issues != [] && CountsAsRepair(reply) then l.(repairActions := l.repairActions + 1) else l;
      match reply
      case SaveSections(save) => SlotsOfSave(env, s, l1, call.slot, save);
      case ReviseBlocks(patch) => SlotsOfRevise(env, s, l1, call.slot, patch);
      case Finish(expected) => FreezeKeepsSlots(env, s, l1, expected, call.slot);
      case Challenge(expected, answered) =>
        FreezeKeepsSlots(env, s, l1.(disputes := l1.disputes + {s.current.article}, challenged := Some(s.current.article)), expected, call.slot);
      case _ =>
    }
  }

  lemma SlotsOfTurn(env: Env, s: Store, call: Call, reply: Reply)
    ensures forall w | w in Turn(env, s, call, reply).writes :: KeepsSlots(s, call.slot, w)
  {
    hide Act, KeepsSlots, Recover;
    NoWritesInRecovery(env, s, s.loop, call);
    SlotsOfAct(env, s, Informed(s.loop, call), call, reply);
  }

  /** What a write may do to the ledger: it fills the pending slot, and nothing else. */
  ghost predicate FillsPending(s: Store, w: Write) {
    && IsOpen(s)
    && var slot := s.loop.pending.value.slot;
      && (w.PutReply? ==> w.slot == slot)
      && (w.PutTurn? ==> w.slot == slot && slot in s.replies && w.loop.pending.None?)
      && KeepsSlots(s, slot, w) && !w.PutInput? && !w.PutCheckpoint? && !w.PutPublished?
  }

  lemma OpenFillsPending(env: Env, s: Store, k: nat)
    requires IsOpen(s) && k < |Intended(env, s).writes| && !Has(s, Intended(env, s).writes[k])
    requires forall j | 0 <= j < k :: Has(s, Intended(env, s).writes[j])
    ensures FillsPending(s, Intended(env, s).writes[k])
  {
    hide Intended, Turn, KeepsSlots, IsNextDraft;
    var call := s.loop.pending.value;
    var reply := ReplyOf(env, s, call.slot);
    var a := TurnCourse(env, s);
    var ws, w := Intended(env, s).writes, Intended(env, s).writes[k];
    OpenIsNoCheckpoint(env, s, k);
    SlotsOfTurn(env, s, call, reply);
    PlainKeepsSlots(s, call.slot);
    if 1 <= k <= |a.writes| {
      assert w == a.writes[k - 1];
    } else if k == |a.writes| + 1 {
      assert Has(s, ws[0]);
      TurnEnds(env, s, call, reply);
    }
  }

  lemma PlainKeepsSlots(s: Store, slot: nat)
    ensures forall w: Write | !w.PutPlan? && !w.PutDraft? :: KeepsSlots(s, slot, w)
  {
  }

  lemma TurnEnds(env: Env, s: Store, call: Call, reply: Reply)
    ensures Turn(env, s, call, reply).loop.pending.None?
  {
    hide Act, Recover;
  }

  lemma FillingKeepsLedger(env: Env, s: Store, w: Write)
    requires IsLedger(env, s) && FillsPending(s, w)
    ensures IsLedger(env, Do(s, w))
  {
  }

  lemma FillingCountsDrafts(s: Store, w: Write)
    requires DraftsCounted(s) && FillsPending(s, w) && !Has(s, w) && !Conflicts(s, w)
    ensures DraftsCounted(Do(s, w))
  {
    var t := Do(s, w);
    if w.PutDraft? {
      assert w.slot !in s.receipts;
      if w.receipt.noop {
        assert Revisions(t) == Revisions(s);
      } else {
        assert Revisions(t) == Revisions(s) + {w.slot};
      }
    } else {
      assert Revisions(t) == Revisions(s);
    }
  }

  lemma StepKeepsLedger(env: Env, s: Store)
    requires IsLedger(env, s) && DraftsCounted(s)
    ensures IsLedger(env, Step(env, s)) && DraftsCounted(Step(env, s))
  {
    hide Turn, Gate, Prepare, Has, Conflicts, FillsPending, IsLedger, DraftsCounted, Do, Intended, IsOpen;
    if RemainingWork(env, s) != [] {
      var k := FirstMissing(s, Intended(env, s).writes);
      var w := Intended(env, s).writes[k];
      if IsOpen(s) {
        OpenFillsPending(env, s, k);
        FillingKeepsLedger(env, s, w);
        FillingCountsDrafts(s, w);
      } else {
        IdleKeepsLedger(env, s, k);
      }
    }
  }

  lemma SameReceiptsCount(s: Store, t: Store)
    requires DraftsCounted(s) && t.receipts == s.receipts && t.current == s.current
    ensures DraftsCounted(t)
  {
    assert Revisions(t) == Revisions(s);
  }

  lemma ReservingKeepsLedger(env: Env, s: Store, call: Call, l: Loop)
    requires IsLedger(env, s) && s.loop.pending.None? && s.calls < env.budget
    requires call.slot == s.calls && l.pending == Some(call)
    ensures s.calls !in s.inputs || s.inputs[s.calls] == call ==> IsLedger(env, Do(s, PutInput(call)))
    ensures s.calls in s.inputs && s.inputs[s.calls] == call ==> IsLedger(env, Do(s, PutCheckpoint(s.calls + 1, l)))
  {
  }

  lemma ClosingKeepsLedger(env: Env, s: Store)
    requires IsLedger(env, s) && s.loop.pending.Some? && s.loop.pending.value.slot in s.turns
    ensures IsLedger(env, Do(s, PutCheckpoint(s.calls, s.turns[s.loop.pending.value.slot])))
  {
  }

  lemma PublishingKeepsLedger(env: Env, s: Store, h: Article)
    requires IsLedger(env, s)
    ensures IsLedger(env, Do(s, PutPublished(h)))
  {
  }

  lemma InputIsFrozen(s: Store, call: Call)
    requires !Conflicts(s, PutInput(call)) || Has(s, PutInput(call))
    ensures call.slot in s.inputs ==> s.inputs[call.slot] == call
    ensures Has(s, PutInput(call)) ==> call.slot in s.inputs
  {
  }

  lemma IdleKeepsReceipts(s: Store, w: Write)
    requires w.PutCheckpoint? || w.PutInput? || w.PutPublished?
    ensures Do(s, w).receipts == s.receipts && Do(s, w).current == s.current
  {
  }

  lemma IdleKeepsLedger(env: Env, s: Store, k: nat)
    requires IsLedger(env, s) && DraftsCounted(s) && !IsOpen(s) && k < |Intended(env, s).writes|
    requires !Has(s, Intended(env, s).writes[k]) && !Conflicts(s, Intended(env, s).writes[k])
    requires forall j | 0 <= j < k :: Has(s, Intended(env, s).writes[j])
    ensures var t := Do(s, Intended(env, s).writes[k]); IsLedger(env, t) && DraftsCounted(t)
  {
    hide Intended, Turn, Gate, Prepare, IsLedger, DraftsCounted, Has, Conflicts, Do, IsOpen;
    var ws, w, t := Intended(env, s).writes, Intended(env, s).writes[k], Do(s, Intended(env, s).writes[k]);
    IdleCourse(env, s);
    IdleKeepsReceipts(s, w);
    SameReceiptsCount(s, t);
    if s.loop.pending.Some? {
      ClosingKeepsLedger(env, s);
    } else if w.PutPublished? {
      PublishingKeepsLedger(env, s, w.article);
    } else {
      PreparesNextSlot(env, s);
      var p := Prepare(env, s).value;
      assert k == 1 ==> Has(s, ws[0]);
      InputIsFrozen(s, p.call);
      ReservingKeepsLedger(env, s, p.call, p.loop.(pending := Some(p.call)));
    }
  }

  // ----- the invariant over whole runs

  ghost predicate Inv(env: Env, s: Store) {
    IsSafe(env, s) && QuestionsKept(env, s) && IsLedger(env, s) && DraftsCounted(s)
  }

  /** A run before its first call: nothing is recorded, nothing is planned, and the draft is empty. */
  ghost predicate IsInitial(env: Env, s: Store) {
    && s == Store(0, s.loop, map[], map[], map[], map[], map[], Draft(0, s.current.article), map[], {}, map[], map[], None)
    && s.loop.pending.None? && s.loop.candidate.None? && s.loop.plan == [] && s.loop.questions == []
  }

  lemma InitialPlanSafe(env: Env, l: Loop)
    requires HashIdentifies(env) && l.plan == [] && l.questions == []
    ensures PlanSafe(env, l)
  {
    hide ReviewTasks.IsSound;
  }

  lemma InitialInv(env: Env, s: Store)
    requires IsFaithful(env) && IsInitial(env, s)
    ensures Inv(env, s)
  {
    hide Gate, IsEarned, IsFaithful, PlanSafe, CandidateSafe;
    FaithfulIdentifies(env);
    InitialPlanSafe(env, s.loop);
    assert Revisions(s) == {};
  }

  lemma FaithfulIdentifies(env: Env)
    requires IsFaithful(env)
    ensures HashIdentifies(env)
  {
    hide HashIdentifies, PlansWell, ReadiesWell, SplitsWell, DressesWell, ValidatesWell;
  }

  lemma StepInv(env: Env, s: Store)
    requires IsFaithful(env) && Inv(env, s)
    ensures Inv(env, Step(env, s))
  {
    hide IsFaithful, IsSafe, QuestionsKept, DraftsCounted, Step;
    StepIsSafe(env, s);
    StepKeepsQuestions(env, s);
    StepKeepsLedger(env, s);
  }

  lemma {:induction false} StepsInv(env: Env, s: Store, n: nat)
    requires IsFaithful(env) && Inv(env, s)
    ensures Inv(env, Steps(env, s, n))
    decreases n
  {
    hide IsFaithful, Inv, Step;
    if n > 0 {
      StepInv(env, s);
      StepsInv(env, Step(env, s), n - 1);
    }
  }

  /** The article is the current draft, its approval is for this version and earned, and every question
      of the run is decided once, as covered. */
  ghost predicate IsApproved(env: Env, s: Store, a: Article) {
    && a in s.approvals && IsEarned(env, s, s.approvals[a]) && s.current == Draft(s.approvals[a].draftVersion, a)
    && CoversQuestions(s, s.approvals[a].keys)
  }

  /** MAIN RESULT: whatever the model replies and wherever the workers crash, in every store that is
      reached the ledger is in order and every approval is earned; at every checkpoint an approval
      covers all questions of the run; and a published article is the current draft, approved. */
  lemma EveryRunIsSafe(env: Env, s: Store, crashes: seq<nat>)
    requires IsFaithful(env) && IsInitial(env, s)
    ensures var t := Run(env, s, crashes);
      && IsLedger(env, t) && DraftsCounted(t)
      && (forall h | h in t.approvals :: t.approvals[h].candidate == h && IsEarned(env, t, t.approvals[h]))
      && (t.loop.pending.None? ==> forall h | h in t.approvals :: IsApproved(env, t, h))
      && (t.published.Some? ==> IsApproved(env, t, t.published.value))
  {
    hide IsFaithful, IsInitial, Run, Inv, IsLedger, DraftsCounted, IsEarned, IsApproved, Steps;
    InitialInv(env, s);
    CrashesDoNotMatter(env, s, crashes);
    StepsInv(env, s, Made(env, s, crashes));
    InvIsSafe(env, Run(env, s, crashes));
  }

  lemma InvIsSafe(env: Env, s: Store)
    requires Inv(env, s)
    ensures IsLedger(env, s) && DraftsCounted(s)
    ensures forall h | h in s.approvals :: s.approvals[h].candidate == h && IsEarned(env, s, s.approvals[h])
    ensures s.loop.pending.None? ==> forall h | h in s.approvals :: IsApproved(env, s, h)
    ensures s.published.Some? ==> IsApproved(env, s, s.published.value)
  {
    hide IsLedger, DraftsCounted, LoopSafe, ActsOn, TurnIsSafe, RecordsHonest, IsEarned, Gate, IsApproved, QuestionsKept;
    if s.loop.pending.None? {
      forall h | h in s.approvals ensures IsApproved(env, s, h) {
        CheckpointApproves(env, s, h);
      }
    }
    if s.published.Some? {
      GateApproves(env, s, s.published.value);
    }
  }

  lemma CheckpointApproves(env: Env, s: Store, h: Article)
    requires IsSafe(env, s) && QuestionsKept(env, s) && s.loop.pending.None? && h in s.approvals
    ensures IsApproved(env, s, h)
  {
    hide IsEarned, Gate, CoversQuestions, IsKept, TurnOf, PlanSafe, NamedBelow, RecordsHonest, KeysHold, NothingForgotten, DecidedIds, ReviewWork.IsWork, ReviewsRelations;
    assert Approves(s.loop, h);
    QuestionsAreCovered(env, s, h);
  }

  lemma GateApproves(env: Env, s: Store, h: Article)
    requires Gate(env, s, h) && ApprovalsEarned(env, s)
    ensures IsApproved(env, s, h)
  {
    hide IsEarned, RecordPasses, CoversQuestions, JudgesRelations;
  }

  /** The publication gate never refuses a candidate whose review is complete. */
  lemma CompleteReviewPassesGate(env: Env, s: Store)
    requires Inv(env, s) && s.loop.pending.None? && s.loop.candidate.Some? && s.loop.scopes == []
    ensures Gate(env, s, s.loop.candidate.value)
  {
    hide IsLedger, DraftsCounted, IsEarned, Gate, CoversQuestions, QuestionsKept, PlanSafe, NamedBelow, RecordsHonest, KeysHold, NothingForgotten, DecidedIds, ReviewWork.IsWork, ReviewsRelations, TurnIsSafe;
    var h := s.loop.candidate.value;
    QuestionsAreCovered(env, s, h);
    EarnedPassesGate(env, s, h);
  }

  lemma EarnedPassesGate(env: Env, s: Store, h: Article)
    requires h in s.approvals && s.approvals[h].candidate == h && IsEarned(env, s, s.approvals[h]) && CoversQuestions(s, s.approvals[h].keys)
    requires s.current == Draft(s.approvals[h].draftVersion, h)
    ensures Gate(env, s, h)
  {
    hide RecordPasses, CoversQuestions, DecidesOnce;
    var keys := s.approvals[h].keys;
    forall id | id in ReviewScopes.SectionIds(h.outline) ensures exists key | key in keys :: key in s.reviews && id in s.reviews[key].scope.sectionIds {
      assert ReviewsSection(s, keys, id);
    }
    forall id | id in env.transcript ensures exists key | key in keys :: key in s.reviews && id in s.reviews[key].scope.sourceIds {
      assert ReviewsSource(s, keys, id);
    }
    forall id | id in ReviewPlans.ArticleFrames(h.outline) ensures exists key | key in keys :: key in s.reviews && id in s.reviews[key].scope.frameIds {
      assert ReviewsFrame(s, keys, id);
    }
    var key :| key in keys && key in s.reviews && CoveragePlan.IsFinal(s.reviews[key].scope);
    assert JudgesRelations(s.reviews[key].scope);
  }

  // ----- history is never rewritten

  /** Frozen inputs, replies, turns, receipts, reviews and approvals are written once. */
  lemma StepKeepsHistory(env: Env, s: Store)
    ensures var t := Step(env, s);
      && Extends(s.inputs, t.inputs) && Extends(s.replies, t.replies) && Extends(s.turns, t.turns) && Extends(s.plans, t.plans)
      && Extends(s.receipts, t.receipts) && Extends(s.reviews, t.reviews) && Extends(s.approvals, t.approvals)
      && s.candidates <= t.candidates && Extends(s.sourcePlans, t.sourcePlans) && (s.published.Some? ==> t.published == s.published)
  {
    hide Intended;
    if RemainingWork(env, s) != [] {
      var k := FirstMissing(s, Intended(env, s).writes);
      MadeOnce(s, Intended(env, s).writes[k]);
    }
  }

  // ----- termination

  function Waiting(s: Store): nat {
    if s.loop.pending.Some? then 1 else 0
  }

  /** Every write reserves a call of the budget, or closes the pending turn, or shortens the work. */
  lemma StepDecreases(env: Env, s: Store)
    requires IsLedger(env, s) && RemainingWork(env, s) != []
    ensures var t := Step(env, s);
      && s.calls <= t.calls
      && (t.calls == s.calls ==> Waiting(t) < Waiting(s) || (Waiting(t) == Waiting(s) && |RemainingWork(env, t)| < |RemainingWork(env, s)|))
  {
    hide Turn, Gate, Prepare, Has, Conflicts, Intended, IsLedger, RemainingWork, IsOpen, Do;
    var w := RemainingWork(env, s)[0];
    CallAfter(s, w);
    if w.PutCheckpoint? {
      CheckpointMoves(env, s);
    } else {
      CrashIsInvisible(env, s);
    }
  }

  /** Only checkpoints move the ledger. */
  lemma CallAfter(s: Store, w: Write)
    ensures Do(s, w).calls == if w.PutCheckpoint? then w.calls else s.calls
    ensures Do(s, w).loop == if w.PutCheckpoint? then w.loop else s.loop
  {
  }

  lemma CheckpointMoves(env: Env, s: Store)
    requires IsLedger(env, s) && RemainingWork(env, s) != [] && RemainingWork(env, s)[0].PutCheckpoint?
    ensures var w := RemainingWork(env, s)[0];
      w.calls == s.calls + 1 || (w.calls == s.calls && s.loop.pending.Some? && w.loop.pending.None?)
  {
    hide Turn, Gate, Prepare, Has, Conflicts, Intended;
    var k := FirstMissing(s, Intended(env, s).writes);
    if IsOpen(s) {
      OpenIsNoCheckpoint(env, s, k);
    } else {
      IdleCourse(env, s);
    }
  }

  /** MAIN RESULT: every run ends, whatever the parameters are. */
  lemma {:induction false} EveryRunEnds(env: Env, s: Store) returns (n: nat)
    requires IsLedger(env, s) && DraftsCounted(s)
    ensures RemainingWork(env, Steps(env, s, n)) == []
    decreases env.budget - s.calls, Waiting(s), |RemainingWork(env, s)|
  {
    hide RemainingWork, Step, DraftsCounted;
    if RemainingWork(env, s) == [] {
      n := 0;
    } else {
      StepDecreases(env, s);
      StepKeepsLedger(env, s);
      var m := EveryRunEnds(env, Step(env, s));
      n := m + 1;
    }
  }
}
