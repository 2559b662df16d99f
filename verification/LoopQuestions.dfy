/** No coverage question of a run is lost on the way from the call that raised it to the approval:
    the checkpoint knows every question, whatever crashes lie between (internal/investigator/
    article_loop_input.go, article_loop_sufficiency.go; internal/store/article_loop.go). */
module LoopQuestions {
  import opened Lists
  import opened Wrappers
  import opened ReviewMaterial
  import opened ReviewTasks
  import opened ReviewPlans
  import opened ReviewWork
  import opened ArticleLoop
  import opened LoopCoverage
  import opened LoopRecovery
  import opened LoopSafety
  import opened LoopSteps
  import CoveragePlan
  import CoverageWork
  import ReviewScopes

  // ----- questions and where they were raised

  ghost predicate IsRaised(s: Store, q: CoverageWork.Question) {
    || (exists key | key in s.reviews :: q in s.reviews[key].questions)
    || (exists sources | sources in s.sourcePlans :: q in s.sourcePlans[sources])
  }

  lemma RaisedAreAll(s: Store)
    ensures forall q :: q in AllQuestions(s) <==> IsRaised(s, q)
  {
    forall q ensures q in AllQuestions(s) <==> IsRaised(s, q) {
      if key :| key in s.reviews && q in s.reviews[key].questions {
        var i :| 0 <= i < |s.reviews[key].questions| && s.reviews[key].questions[i] == q;
      }
      if sources :| sources in s.sourcePlans && q in s.sourcePlans[sources] {
        var i :| 0 <= i < |s.sourcePlans[sources]| && s.sourcePlans[sources][i] == q;
      }
    }
  }

  ghost predicate KeptBy(l: Loop, questions: seq<CoverageWork.Question>) {
    forall q | q in questions :: q in l.questions
  }

  /** The loop knows exactly the questions that were raised. */
  ghost predicate IsKept(s: Store, l: Loop) {
    && (forall q | q in l.questions :: IsRaised(s, q))
    && (forall key | key in s.reviews :: KeptBy(l, s.reviews[key].questions))
    && (forall sources | sources in s.sourcePlans :: KeptBy(l, s.sourcePlans[sources]))
  }

  /** All but those of the turn that is being taken. */
  ghost predicate IsKeptBut(s: Store, l: Loop, ws: seq<Write>) {
    && (forall q | q in l.questions :: IsRaised(s, q))
    && (forall key | key in s.reviews :: KeptBy(l, s.reviews[key].questions) || PutReview(key, s.reviews[key]) in ws)
    && (forall sources | sources in s.sourcePlans :: KeptBy(l, s.sourcePlans[sources]) || PutSources(sources, s.sourcePlans[sources]) in ws)
  }

  /** The turn that a worker with this store takes. */
  function TurnOf(env: Env, s: Store): Action
    requires s.loop.pending.Some?
  {
    Turn(env, s, s.loop.pending.value, ReplyOf(env, s, s.loop.pending.value.slot))
  }

  /** The turn of the loop that has a say about approvals: an approved candidate has nothing pending. */
  ghost predicate Approves(l: Loop, h: ArticleLoop.Article) {
    l.candidate == Some(h) && l.scopes == []
  }

  /** Until the checkpoint moves on, questions and approvals are those of the turn. */
  ghost predicate QuestionsKept(env: Env, s: Store) {
    if s.loop.pending.None? then
      IsKept(s, s.loop) && forall h | h in s.approvals :: Approves(s.loop, h)
    else if s.loop.pending.value.slot in s.turns then
      var l := s.turns[s.loop.pending.value.slot];
      IsKept(s, l) && forall h | h in s.approvals :: Approves(l, h)
    else
      var ws := TurnOf(env, s).writes;
      IsKeptBut(s, s.loop, ws) && forall h | h in s.approvals :: PutApproval(s.approvals[h]) in ws
  }

  // ----- what a turn adds

  ghost predicate Adds(w: Write, q: CoverageWork.Question) {
    (w.PutReview? && q in w.record.questions) || (w.PutSources? && q in w.questions)
  }

  ghost predicate KeepsAdded(l: Loop, w: Write) {
    (w.PutReview? ==> KeptBy(l, w.record.questions)) && (w.PutSources? ==> KeptBy(l, w.questions))
  }

  /** The questions after a turn are those before and those that its writes add. */
  ghost predicate AddsUp(l: Loop, ws: seq<Write>, l': Loop) {
    && KeptBy(l', l.questions) && (forall w | w in ws :: KeepsAdded(l', w))
    && forall q | q in l'.questions :: q in l.questions || exists w | w in ws :: Adds(w, q)
  }

  lemma NothingAdded(l: Loop, ws: seq<Write>, l': Loop)
    requires l'.questions == l.questions && forall w | w in ws :: !w.PutSources? && (w.PutReview? ==> KeptBy(l, w.record.questions))
    ensures AddsUp(l, ws, l')
  {
  }

  lemma AcceptShape(env: Env, s: Store, l: Loop, scope: Scope, report: Report)
    requires l.candidate.Some?
    ensures var a, key, record := Accept(env, s, l, scope, report), Accepted(l.candidate.value, scope.id, s.calls), RecordOf(env, s, l, l.candidate.value, scope, report);
      && a.writes != [] && a.writes[0] == PutReview(key, record) && (forall i | 1 <= i < |a.writes| :: a.writes[i].PutApproval?)
      && a.loop.questions == WithReview(l, key, record).questions
  {
    hide BlockingOnly, WithReview, RecordOf;
  }

  lemma ReviewAdds(env: Env, s: Store, l: Loop, scope: Scope, report: Report)
    requires IsFiled(env, s, l, scope, report)
    ensures AddsUp(l, Accept(env, s, l, scope, report).writes, Accept(env, s, l, scope, report).loop)
  {
    hide CandidateSafe, PlanSafe, NamedBelow, IsFiled, Asked, Accept, WithReview, DistinctIds, Omissions;
    FiledHasCandidate(env, s, l, scope, report);
    FiledQuestions(env, s, l, scope, report);
    AcceptShape(env, s, l, scope, report);
    var a := Accept(env, s, l, scope, report);
    var added := Raised(false, s.calls, report.topics);
    assert a.writes[0].record.questions == added && a.loop.questions == l.questions + added;
    forall w | w in a.writes ensures KeepsAdded(a.loop, w) {
      var i :| 0 <= i < |a.writes| && a.writes[i] == w;
    }
    forall q | q in a.loop.questions && q !in l.questions ensures exists w | w in a.writes :: Adds(w, q) {
      assert Adds(a.writes[0], q) && a.writes[0] in a.writes;
    }
  }

  lemma SourceAdds(l: Loop, sources: seq<string>, questions: seq<CoverageWork.Question>, l': Loop)
    requires l'.questions == l.questions + questions
    ensures AddsUp(l, [PutSources(sources, questions)], l')
  {
    var w := PutSources(sources, questions);
    forall q | q in l'.questions && q !in l.questions ensures exists v | v in [w] :: Adds(v, q) {
      assert Adds(w, q) && w in [w];
    }
  }

  /** A rebound review raises what its origin raised, and that is known. */
  lemma ReboundIsKept(env: Env, s: Store, l: Loop, ws: seq<Write>, w: Write)
    requires IsKeptBut(s, l, ws) && Rebinds(env, s, w) && forall v | v in ws && v.PutReview? :: v.key.Reused?
    ensures KeptBy(l, w.record.questions)
  {
    hide HoldsFrames;
    var source := w.record.reusedFrom.value;
    assert PutReview(source, s.reviews[source]) !in ws;
  }

  lemma SaveKeepsQuestions(env: Env, s: Store, l: Loop, slot: nat, save: Save)
    ensures SaveAndFinish(env, s, l, slot, save).loop.questions == l.questions
  {
    hide Freeze, SaveDraft, AfterDraft;
    var w := SaveDraft(env, s, slot, save);
    if w.receipt.Some? {
      var s1 := AfterDraft(s, slot, w.receipt.value);
      var l1 := if w.receipt.value.noop then l else l.(challenged := None, candidate := None, scopes := [], keys := [], draftVersion := 0);
      FreezeKeepsQuestions(env, s1, l1, s1.current.version);
    }
  }

  lemma AuthorKeepsQuestions(env: Env, s: Store, l: Loop, call: Call, reply: Reply)
    requires call.mode.Author?
    ensures var a := Act(env, s, l, call, reply);
      a.loop.questions == l.questions && forall w | w in a.writes :: !w.PutSources? && (w.PutReview? ==> w.key.Reused?)
  {
    hide Freeze, SaveAndFinish, Revise;
    var l1 := if l.issues != [] && CountsAsRepair(reply) then l.(repairActions := l.repairActions + 1) else l;
    match reply
    case SaveSections(save) => SaveWrites(env, s, l1, call.slot, save); SaveKeepsQuestions(env, s, l1, call.slot, save);
    case ReviseBlocks(patch) => ReviseWrites(env, s, l1, call.slot, patch); ReviseKeepsQuestions(env, s, l1, call.slot, patch);
    case Finish(expected) => FreezeWrites(env, s, l1, expected); FreezeKeepsQuestions(env, s, l1, expected);
    case Challenge(expected, answered) =>
      var l2 := l1.(disputes := l1.disputes + {s.current.article}, challenged := Some(s.current.article));
      FreezeWrites(env, s, l2, expected);
      FreezeKeepsQuestions(env, s, l2, expected);
    case _ =>
  }

  lemma FreezeKeepsQuestions(env: Env, s: Store, l: Loop, expected: nat)
    ensures Freeze(env, s, l, expected).loop.questions == l.questions
  {
    hide ReuseFirst;
  }

  lemma ReviseKeepsQuestions(env: Env, s: Store, l: Loop, slot: nat, patch: Patch)
    ensures Revise(env, s, l, slot, patch).loop.questions == l.questions
  {
    hide SaveAndFinish;
    var planned := if slot in s.plans then Some(s.plans[slot])
                   else if s.current.version != patch.expected then None
                   else env.expand(s.current.article, patch);
    if planned.Some? {
      SaveKeepsQuestions(env, s, l, slot, planned.value);
    }
  }

  lemma ActAdds(env: Env, s: Store, l: Loop, call: Call, reply: Reply)
    requires IsFaithful(env) && RecordsHonest(env, s) && LoopSafe(env, s, l, s.calls) && ActsOn(env, l, call)
    requires var a := Act(env, s, l, call, reply); a.ok && AllMade(s, a.writes) && IsKeptBut(s, l, a.writes)
    ensures var a := Act(env, s, l, call, reply); AddsUp(l, a.writes, a.loop)
  {
    hide IsFaithful, RecordsHonest, LoopSafe, Accept, IsKeptBut, Rebinds, AddsUp, IsComplete, Asked, IsFiled, Freeze, SaveAndFinish, Revise, Dispute;
    var a := Act(env, s, l, call, reply);
    match call.mode
    case Source =>
      if reply.SourcePlan? {
        SourceAdds(l, call.sources, Raised(true, s.calls, reply.topics), a.loop);
      } else {
        NothingAdded(l, a.writes, a.loop);
      }
    case Review(scope) =>
      if IsAdmitted(env, l, scope, reply) {
        AcceptFiles(env, s, l, scope, reply.report);
        AdmittedIsFiled(env, s, l, scope, reply);
        ReviewAdds(env, s, l, scope, reply.report);
      } else {
        NothingAdded(l, a.writes, a.loop);
      }
    case Author =>
      AuthorKeepsQuestions(env, s, l, call, reply);
      forall w | w in a.writes && w.PutReview? ensures KeptBy(l, w.record.questions) {
        var k :| 0 <= k < |a.writes| && a.writes[k] == w;
        ActRebinds(env, s, l, call, reply, k);
        ReboundIsKept(env, s, l, a.writes, w);
      }
      NothingAdded(l, a.writes, a.loop);
  }

  lemma TurnAdds(env: Env, s: Store, call: Call, reply: Reply)
    requires IsFaithful(env) && RecordsHonest(env, s) && LoopSafe(env, s, s.loop, s.calls) && ActsOn(env, s.loop, call)
    requires var a := Turn(env, s, call, reply); a.ok && AllMade(s, a.writes) && IsKeptBut(s, s.loop, a.writes)
    ensures var a := Turn(env, s, call, reply); AddsUp(s.loop, a.writes, a.loop)
  {
    hide IsFaithful, RecordsHonest, LoopSafe, Act, Recover, ActsOn, KeepsAdded, Adds, AllMade;
    var a, l := Turn(env, s, call, reply), Informed(s.loop, call);
    if reply.Truncated? || reply.TooLarge? {
      RecoverAdds(env, s, s.loop, call);
    } else {
      InformedIsSafe(env, s, call, s.calls);
      ActAdds(env, s, l, call, reply);
      SameKeeps(Act(env, s, l, call, reply).loop, a.loop);
    }
  }

  lemma SameKeeps(l: Loop, l': Loop)
    requires l'.questions == l.questions
    ensures forall w :: KeepsAdded(l, w) <==> KeepsAdded(l', w)
  {
  }

  lemma RecoverAdds(env: Env, s: Store, l: Loop, call: Call)
    ensures Recover(env, s, l, call).writes == [] && Recover(env, s, l, call).loop.questions == l.questions
  {
  }

  /** A recorded turn knows all questions. */
  lemma TurnKeepsAll(s: Store, l: Loop, ws: seq<Write>, l': Loop)
    requires AddsUp(l, ws, l') && IsKeptBut(s, l, ws) && AllMade(s, ws)
    ensures IsKept(s, l')
  {
    hide IsRaised;
    forall key | key in s.reviews ensures KeptBy(l', s.reviews[key].questions) {
      if PutReview(key, s.reviews[key]) in ws {
        assert KeepsAdded(l', PutReview(key, s.reviews[key]));
      }
    }
    forall sources | sources in s.sourcePlans ensures KeptBy(l', s.sourcePlans[sources]) {
      if PutSources(sources, s.sourcePlans[sources]) in ws {
        assert KeepsAdded(l', PutSources(sources, s.sourcePlans[sources]));
      }
    }
    forall q | q in l'.questions ensures IsRaised(s, q) {
      if q !in l.questions {
        var w :| w in ws && Adds(w, q);
        var i :| 0 <= i < |ws| && ws[i] == w;
        MadeIsRaised(s, w, q);
      }
    }
  }

  lemma MadeIsRaised(s: Store, w: Write, q: CoverageWork.Question)
    requires Has(s, w) && Adds(w, q)
    ensures IsRaised(s, q)
  {
    if w.PutReview? {
      assert w.key in s.reviews && q in s.reviews[w.key].questions;
    } else {
      assert w.sources in s.sourcePlans && q in s.sourcePlans[w.sources];
    }
  }

  // ----- one durable write

  lemma RaisedGrows(s: Store, w: Write)
    requires !Has(s, w) && !Conflicts(s, w)
    ensures forall q | IsRaised(s, q) :: IsRaised(Do(s, w), q)
  {
    var t := Do(s, w);
    forall key | key in s.reviews ensures key in t.reviews && t.reviews[key] == s.reviews[key] {
    }
    forall sources | sources in s.sourcePlans ensures sources in t.sourcePlans && t.sourcePlans[sources] == s.sourcePlans[sources] {
    }
  }

  lemma WriteOfTurnKeeps(s: Store, l: Loop, ws: seq<Write>, w: Write)
    requires IsKeptBut(s, l, ws) && !Has(s, w) && !Conflicts(s, w) && (w in ws || w.PutReply?)
    ensures IsKeptBut(Do(s, w), l, ws)
  {
    hide IsRaised;
    RaisedGrows(s, w);
  }

  lemma SameIsKept(s: Store, t: Store, l: Loop, l': Loop)
    requires IsKept(s, l) && t.reviews == s.reviews && t.sourcePlans == s.sourcePlans && l'.questions == l.questions
    ensures IsKept(t, l') && forall ws :: IsKeptBut(t, l', ws)
  {
    forall q | q in l'.questions ensures IsRaised(t, q) {
      assert IsRaised(s, q);
    }
    forall key | key in t.reviews ensures KeptBy(l', t.reviews[key].questions) {
      assert KeptBy(l, s.reviews[key].questions);
    }
    forall sources | sources in t.sourcePlans ensures KeptBy(l', t.sourcePlans[sources]) {
      assert KeptBy(l, s.sourcePlans[sources]);
    }
  }

  lemma PrepareKeepsQuestions(env: Env, s: Store)
    requires Prepare(env, s).Some?
    ensures Prepare(env, s).value.loop.questions == s.loop.questions
  {
  }

  /** An approving turn leaves the approved candidate with nothing pending. */
  lemma ApprovingTurn(env: Env, s: Store, call: Call, reply: Reply, ap: Approval)
    requires PutApproval(ap) in Turn(env, s, call, reply).writes
    ensures Approves(Turn(env, s, call, reply).loop, ap.candidate)
  {
    hide Act, Recover, Accept, IsAdmitted;
    NoWritesInRecovery(env, s, s.loop, call);
    var l := Informed(s.loop, call);
    var ws := Turn(env, s, call, reply).writes;
    var k :| 0 <= k < |ws| && ws[k] == PutApproval(ap);
    OnlyReviewsApprove(env, s, l, call, reply, k);
    ApprovingReview(env, s, l, call.mode.scope, reply.report, ap);
  }

  lemma ApprovingReview(env: Env, s: Store, l: Loop, scope: Scope, report: Report, ap: Approval)
    requires PutApproval(ap) in Accept(env, s, l, scope, report).writes
    ensures Approves(Accept(env, s, l, scope, report).loop, ap.candidate)
  {
    hide BlockingOnly, Without, Merged, RecordOf;
  }

  /** An open store in which the questions are kept, and the turn that it takes. */
  ghost predicate IsTurning(env: Env, s: Store, a: Action) {
    && s.loop.pending.Some? && s.loop.pending.value.slot !in s.turns && a == TurnOf(env, s)
    && IsKeptBut(s, s.loop, a.writes) && forall h | h in s.approvals :: PutApproval(s.approvals[h]) in a.writes
  }

  lemma TurningOn(env: Env, s: Store, t: Store, w: Write, a: Action)
    requires IsTurning(env, s, a) && t == Do(s, w) && !Has(s, w) && !Conflicts(s, w) && (w in a.writes || w.PutReply?)
    requires t.loop == s.loop && t.turns == s.turns && TurnOf(env, t) == a
    ensures QuestionsKept(env, t)
  {
    hide TurnOf, IsKeptBut;
    WriteOfTurnKeeps(s, s.loop, a.writes, w);
    assert w.PutApproval? ==> w in a.writes;
  }

  lemma ReplyKeepsQuestions(env: Env, s: Store, w: Write, a: Action)
    requires IsTurning(env, s, a) && !Has(s, w) && !Conflicts(s, w)
    requires w == PutReply(s.loop.pending.value.slot, ReplyOf(env, s, s.loop.pending.value.slot))
    ensures QuestionsKept(env, Do(s, w))
  {
    hide Turn, IsKeptBut, QuestionsKept, Has, Conflicts;
    AlikeAfter(s, w);
    TurnAlike(env, s, Do(s, w), s.loop.pending.value, w.reply);
    TurningOn(env, s, Do(s, w), w, a);
  }

  lemma ActionKeepsQuestions(env: Env, s: Store, k: nat, a: Action)
    requires IsTurning(env, s, a) && k < |a.writes| && !Has(s, a.writes[k]) && !Conflicts(s, a.writes[k])
    requires forall j | 0 <= j < k :: Has(s, a.writes[j])
    ensures QuestionsKept(env, Do(s, a.writes[k]))
  {
    hide Turn, IsKeptBut, QuestionsKept, Has, Conflicts, Do;
    var call := s.loop.pending.value;
    var w := a.writes[k];
    TurnStable(env, s, call, ReplyOf(env, s, call.slot), k);
    KeepsLoop(s, w);
    TurningOn(env, s, Do(s, w), w, a);
  }

  lemma TurnKeepsQuestions(env: Env, s: Store, a: Action)
    requires IsFaithful(env) && IsSafe(env, s) && IsTurning(env, s, a) && a.ok && AllMade(s, a.writes)
    ensures QuestionsKept(env, Do(s, PutTurn(s.loop.pending.value.slot, a.loop)))
  {
    hide IsFaithful, LoopSafe, Turn, RecordsHonest, ActsOn, TurnIsSafe, ApprovalsEarned, IsKeptBut, IsKept, AddsUp, Approves, AllMade;
    var call := s.loop.pending.value;
    var reply := ReplyOf(env, s, call.slot);
    TurnAdds(env, s, call, reply);
    TurnKeepsAll(s, s.loop, a.writes, a.loop);
    SameIsKept(s, Do(s, PutTurn(call.slot, a.loop)), a.loop, a.loop);
    forall h | h in s.approvals ensures Approves(a.loop, h) {
      ApprovingTurn(env, s, call, reply, s.approvals[h]);
      EarnedBy(env, s, h);
    }
  }

  lemma OpenIsTurning(env: Env, s: Store)
    requires IsOpen(s) && QuestionsKept(env, s)
    ensures IsTurning(env, s, TurnOf(env, s))
  {
    hide TurnOf, IsKeptBut;
  }

  lemma OpenKeepsQuestions(env: Env, s: Store, k: nat)
    requires IsFaithful(env) && IsSafe(env, s) && IsOpen(s) && QuestionsKept(env, s) && k < |Intended(env, s).writes|
    requires var w := Intended(env, s).writes[k]; !Has(s, w) && !Conflicts(s, w) && !w.PutCheckpoint?
    requires forall j | 0 <= j < k :: Has(s, Intended(env, s).writes[j])
    ensures QuestionsKept(env, Do(s, Intended(env, s).writes[k]))
  {
    hide IsFaithful, IsSafe, Turn, Has, Conflicts, Intended, QuestionsKept, IsTurning, Do;
    OpenIsTurning(env, s);
    var a := TurnCourse(env, s);
    var call, ws, w := s.loop.pending.value, Intended(env, s).writes, Intended(env, s).writes[k];
    if k == 0 {
      ReplyKeepsQuestions(env, s, w, a);
    } else if k <= |a.writes| {
      assert w == a.writes[k - 1];
      forall j | 0 <= j < k - 1 ensures Has(s, a.writes[j]) {
        assert ws[j + 1] == a.writes[j];
      }
      ActionKeepsQuestions(env, s, k - 1, a);
    } else {
      assert k == |a.writes| + 1 && w == PutTurn(call.slot, a.loop);
      forall j | 0 <= j < |a.writes| ensures Has(s, a.writes[j]) {
        assert ws[j + 1] == a.writes[j];
      }
      TurnKeepsQuestions(env, s, a);
    }
  }

  lemma EarnedBy(env: Env, s: Store, h: ArticleLoop.Article)
    requires ApprovalsEarned(env, s) && h in s.approvals
    ensures s.approvals[h].candidate == h && IsEarned(env, s, s.approvals[h])
  {
    hide IsEarned;
  }

  lemma ClosingKeepsQuestions(env: Env, s: Store)
    requires QuestionsKept(env, s) && TurnIsSafe(env, s) && s.loop.pending.Some? && s.loop.pending.value.slot in s.turns
    ensures QuestionsKept(env, Do(s, PutCheckpoint(s.calls, s.turns[s.loop.pending.value.slot])))
  {
    hide LoopSafe, IsKept, TurnOf;
    var l := s.turns[s.loop.pending.value.slot];
    SameIsKept(s, Do(s, PutCheckpoint(s.calls, l)), l, l);
  }

  lemma IdleKeepsQuestions(env: Env, s: Store, w: Write)
    requires QuestionsKept(env, s) && s.loop.pending.None? && (w.PutPublished? || w.PutInput?)
    ensures QuestionsKept(env, Do(s, w))
  {
    hide IsKept, TurnOf;
    SameIsKept(s, Do(s, w), s.loop, s.loop);
  }

  lemma ReservingKeepsQuestions(env: Env, s: Store, l: Loop)
    requires QuestionsKept(env, s) && s.loop.pending.None? && s.approvals == map[] && l.questions == s.loop.questions
    requires l.pending.Some? && l.pending.value.slot !in s.turns
    ensures QuestionsKept(env, Do(s, PutCheckpoint(s.calls + 1, l)))
  {
    hide IsKept, IsKeptBut, TurnOf;
    SameIsKept(s, Do(s, PutCheckpoint(s.calls + 1, l)), s.loop, l);
  }

  lemma NoApprovalYet(env: Env, s: Store)
    requires QuestionsKept(env, s) && s.loop.pending.None? && (s.loop.candidate.Some? ==> s.loop.candidate.value !in s.approvals)
    ensures s.approvals == map[]
  {
    hide IsKept;
  }

  lemma StepKeepsQuestions(env: Env, s: Store)
    requires IsFaithful(env) && IsSafe(env, s) && QuestionsKept(env, s) && s.calls !in s.turns
    ensures QuestionsKept(env, Step(env, s))
  {
    hide IsFaithful, LoopSafe, Turn, Has, Conflicts, RecordsHonest, ActsOn, TurnIsSafe, ApprovalsEarned, Gate, Prepare, QuestionsKept, Intended, Do;
    if RemainingWork(env, s) != [] {
      var k := FirstMissing(s, Intended(env, s).writes);
      var w := Intended(env, s).writes[k];
      if IsOpen(s) {
        OpenIsNoCheckpoint(env, s, k);
        OpenKeepsQuestions(env, s, k);
      } else {
        IdleCourse(env, s);
        if s.loop.pending.Some? {
          ClosingKeepsQuestions(env, s);
        } else if w.PutPublished? || w.PutInput? {
          IdleKeepsQuestions(env, s, w);
        } else {
          PrepareKeepsQuestions(env, s);
          PreparesNextSlot(env, s);
          NoApprovalYet(env, s);
          ReservingKeepsQuestions(env, s, w.loop);
        }
      }
    }
  }

  // ----- the publication gate

  lemma {:induction false} CountedIsNamed(scopes: seq<Scope>, n: nat, id: string)
    requires n <= |scopes| && CoveragePlan.IdsFirst(scopes, n)[id] > 0
    ensures exists s | s in scopes :: id in s.coverageQuestionIds
  {
    if id in scopes[n - 1].coverageQuestionIds {
      assert scopes[n - 1] in scopes;
    } else {
      CountedIsNamed(scopes, n - 1, id);
    }
  }

  /** A plan that asks every question once names nothing else. */
  lemma PlanNamesQuestions(r: Reading, c: CoverageWork.Survey, w: Backlog, id: string)
    requires IsWork(r, c, w) && AsksOnce(c, w.plan)
    ensures CoveragePlan.Ids(w.plan)[id] == if IsAsked(c, id) then 1 else 0
  {
    hide IsPending, CoveragePlan.IdsFirst, HasSection, OneFinal, AsksAtMostOnce, NamesLocalChapters, HasRelations, IsDigest;
    if IsAsked(c, id) {
      var q :| q in c.questions && q.id == id;
      var i: nat :| i < |c.questions| && c.questions[i] == q;
    } else if CoveragePlan.Ids(w.plan)[id] > 0 {
      CountedIsAsked(r, c, w.plan, id);
    }
  }

  lemma CountedIsAsked(r: Reading, c: CoverageWork.Survey, plan: seq<Scope>, id: string)
    requires IsSound(r, c, plan) && CoveragePlan.Ids(plan)[id] > 0
    ensures IsAsked(c, id)
  {
    hide CoveragePlan.IdsFirst, OneFinal, AsksAtMostOnce, NamesLocalChapters, HasRelations, IsDigest, IsAsked;
    CountedIsNamed(plan, |plan|, id);
    var t :| t in plan && id in t.coverageQuestionIds;
    assert IsTask(r, c, t);
  }

  /** Two lists without repetition that hold the same have one length. */
  lemma SameLength(a: seq<string>, b: seq<string>)
    requires Distinct(a) && Distinct(b) && forall x :: x in a <==> x in b
    ensures |a| == |b|
  {
    ElementsCount(a);
    ElementsCount(b);
    assert Elements(a) == Elements(b);
  }

  lemma QuestionsCounted(s: Store, l: Loop)
    requires IsKept(s, l) && DistinctIds(l.questions)
    ensures |AllQuestions(s)| == |l.questions| && AllQuestions(s) == Elements(l.questions)
    ensures forall p, q | p in AllQuestions(s) && q in AllQuestions(s) :: p.id == q.id ==> p == q
  {
    RaisedAreAll(s);
    forall q ensures q in AllQuestions(s) <==> q in l.questions {
    }
    assert AllQuestions(s) == Elements(l.questions);
    ElementsCount(l.questions);
  }

  lemma AskedIsQuestion(l: Loop, c: CoverageWork.Survey, x: string)
    requires c.questions == l.questions
    ensures IsAsked(c, x) <==> x in QuestionIds(l.questions)
  {
    if IsAsked(c, x) {
      var q :| q in c.questions && q.id == x;
      var i :| 0 <= i < |l.questions| && l.questions[i] == q;
      assert QuestionIds(l.questions)[i] == x;
    }
    if x in QuestionIds(l.questions) {
      var i :| 0 <= i < |l.questions| && QuestionIds(l.questions)[i] == x;
      assert l.questions[i] in c.questions;
    }
  }

  /** What was decided are exactly the questions of the run, each once. */
  lemma DecidedAreQuestions(env: Env, s: Store, l: Loop, h: ArticleLoop.Article)
    requires IsWork(ReadingOf(env, l, h), SurveyOf(env, l, h), BacklogOf(l)) && AsksOnce(SurveyOf(env, l, h), l.plan)
    requires DecidedIds(s, l.keys) == CoveragePlan.Ids(l.plan) && DistinctIds(l.questions)
    ensures Distinct(DecisionIds(Decided(s, l.keys))) && |Decided(s, l.keys)| == |l.questions|
    ensures forall x :: x in DecisionIds(Decided(s, l.keys)) <==> x in QuestionIds(l.questions)
  {
    hide IsWork, AsksOnce, CoveragePlan.Ids, Decided, IsAsked;
    var ids, r, c := DecisionIds(Decided(s, l.keys)), ReadingOf(env, l, h), SurveyOf(env, l, h);
    forall x ensures multiset(ids)[x] == (if IsAsked(c, x) then 1 else 0) && (IsAsked(c, x) <==> x in QuestionIds(l.questions)) {
      PlanNamesQuestions(r, c, BacklogOf(l), x);
      AskedIsQuestion(l, c, x);
    }
    CountsOfDistinct(ids);
    forall x ensures x in ids <==> x in QuestionIds(l.questions) {
      assert x in ids <==> multiset(ids)[x] > 0;
    }
    SameLength(ids, QuestionIds(l.questions));
  }

  lemma DecidedCover(env: Env, s: Store, h: ArticleLoop.Article)
    requires s.loop.candidate == Some(h) && s.loop.scopes == [] && CandidateSafe(env, s, s.loop, h, s.calls + 1)
    ensures IsWork(ReadingOf(env, s.loop, h), SurveyOf(env, s.loop, h), BacklogOf(s.loop)) && AsksOnce(SurveyOf(env, s.loop, h), s.loop.plan)
    ensures DecidedIds(s, s.loop.keys) == CoveragePlan.Ids(s.loop.plan) && h in s.approvals && s.approvals[h].keys == s.loop.keys
  {
    hide IsWork, AsksOnce, CoveragePlan.Ids, DecidedIds, KeysHold, NothingForgotten, ReviewsRelations;
    NothingNamed();
  }

  lemma EarnedDecides(env: Env, s: Store, ap: Approval)
    requires IsEarned(env, s, ap)
    ensures DecidesOnce(s, ap.keys)
  {
    hide RecordPasses, ReviewsSection, ReviewsSource, ReviewsFrame, DecidesOnce, ReviewsRelations;
  }

  /** MAIN RESULT: when nothing is pending, every question that was ever raised in the run, by a source
      plan or by a review, has been decided once, and as covered. */
  lemma QuestionsAreCovered(env: Env, s: Store, h: ArticleLoop.Article)
    requires IsSafe(env, s) && QuestionsKept(env, s) && s.loop.pending.None? && s.loop.candidate == Some(h) && s.loop.scopes == []
    ensures h in s.approvals && s.approvals[h].keys == s.loop.keys && CoversQuestions(s, s.loop.keys)
  {
    hide IsWork, AsksOnce, CoveragePlan.Ids, DecidedIds, Decided, CandidateSafe, RecordsHonest, TurnIsSafe, NamedBelow, PlanSafe, IsKept, AllQuestions, IsEarned, Gate, ApprovalsEarned;
    var l := s.loop;
    PlanIsDistinct(env, l);
    DecidedCover(env, s, h);
    EarnedBy(env, s, h);
    EarnedDecides(env, s, s.approvals[h]);
    QuestionsCounted(s, l);
    DecidedAreQuestions(env, s, l, h);
    var decided := Decided(s, l.keys);
    forall d | d in decided ensures exists q | q in AllQuestions(s) :: q.id == d.questionId {
      var i :| 0 <= i < |decided| && decided[i] == d;
      assert DecisionIds(decided)[i] == d.questionId && d.questionId in DecisionIds(decided);
      var j :| 0 <= j < |l.questions| && QuestionIds(l.questions)[j] == d.questionId;
      assert l.questions[j] in Elements(l.questions);
    }
    forall i, j | 0 <= i < j < |decided| ensures decided[i].questionId != decided[j].questionId {
      assert DecisionIds(decided)[i] != DecisionIds(decided)[j];
    }
  }

  lemma NothingNamed()
    ensures CoveragePlan.Ids([]) == multiset{}
  {
  }
}
