/** Findings over whole runs, with any crashes: a stored review says what the model reported, a blocked
    candidate leaves exactly its blocking findings to the author, and they stay there
    (internal/investigator/article_loop.go, article_loop_input.go). */
module LoopVerdicts {
  import opened Wrappers
  import opened ArticleLoop
  import opened LoopRecovery
  import opened LoopSafety
  import opened LoopSteps
  import opened LoopQuestions
  import opened LoopRuns
  import opened LoopFindings
  import CoverageWork
  import LoopCoverage
  import ReviewMaterial
  import ReviewPlans
  import ReviewTasks
  import ReviewWork

  // ----- reviews and reports

  ghost predicate IsOmission(report: Report, i: Issue) {
    exists d | d in report.decisions :: d.verdict == Missing && i == Issue("coverage:" + d.questionId, true)
  }

  /** The review says what the report says; a missing question is a blocking finding. */
  ghost predicate SaysReport(r: Record, report: Report) {
    && r.decisions == report.decisions && (forall i :: i in r.issues <==> i in report.issues || IsOmission(report, i))
    && |r.questions| == |report.topics|
    && forall j | 0 <= j < |report.topics| :: r.questions[j].topic == report.topics[j].text && r.questions[j].evidenceRefs == report.topics[j].evidenceRefs
  }

  /** The review of the call with this slot, which the model answered. */
  ghost predicate IsReportOf(s: Store, slot: int, h: Article, r: Record) {
    && slot in s.inputs && s.inputs[slot].mode == Review(r.scope) && r.candidate == h
    && slot in s.replies && s.replies[slot].Reviewed? && SaysReport(r, s.replies[slot].report)
  }

  ghost predicate IsReported(s: Store, key: Key)
    requires key in s.reviews
  {
    key.Accepted? ==> s.reviews[key].scope.id == key.scopeId && IsReportOf(s, key.calls - 1, key.candidate, s.reviews[key])
  }

  ghost predicate AllReported(s: Store) {
    forall key | key in s.reviews :: IsReported(s, key)
  }

  lemma {:induction false} OmissionsAre(decisions: seq<Decision>, i: Issue)
    ensures i in Omissions(decisions) <==> exists d | d in decisions :: d.verdict == Missing && i == Issue("coverage:" + d.questionId, true)
  {
    if decisions != [] {
      var front, last := decisions[..|decisions| - 1], decisions[|decisions| - 1];
      OmissionsAre(front, i);
      assert decisions == front + [last];
    }
  }

  lemma RecordSays(env: Env, s: Store, l: Loop, h: Article, scope: ReviewMaterial.Scope, report: Report)
    ensures SaysReport(RecordOf(env, s, l, h, scope, report), report)
  {
    hide Omissions, Asked, QuestionId;
    forall i ensures i in report.issues + Omissions(report.decisions) <==> i in report.issues || IsOmission(report, i) {
      OmissionsAre(report.decisions, i);
    }
  }

  lemma TurnFiles(env: Env, s: Store, call: Call, reply: Reply, w: Write)
    requires w in Turn(env, s, call, reply).writes && w.PutReview? && w.key.Accepted?
    ensures call.mode.Review? && reply.Reviewed? && s.loop.candidate.Some?
    ensures w in Accept(env, s, Informed(s.loop, call), call.mode.scope, reply.report).writes
  {
    hide Act, Recover, Accept, IsComplete, Asked;
    NoWritesInRecovery(env, s, s.loop, call);
    var ws := Turn(env, s, call, reply).writes;
    var k :| 0 <= k < |ws| && ws[k] == w;
    OnlyReviewsApprove(env, s, Informed(s.loop, call), call, reply, k);
  }

  /** A new review is of the call that is being answered. */
  lemma FiledIsReported(env: Env, s: Store, reply: Reply, w: Write)
    requires s.loop.pending.Some? && PendingIsReserved(s)
    requires var call := s.loop.pending.value; call.slot in s.replies && s.replies[call.slot] == reply && w in Turn(env, s, call, reply).writes && w.PutReview?
    ensures IsReported(Do(s, w), w.key)
  {
    hide Turn, Accept, RecordOf, SaysReport;
    var call := s.loop.pending.value;
    if w.key.Accepted? {
      TurnFiles(env, s, call, reply, w);
      var l := Informed(s.loop, call);
      AcceptedRecord(env, s, l, call.mode.scope, reply.report, w);
      RecordSays(env, s, l, l.candidate.value, call.mode.scope, reply.report);
    }
  }

  lemma AcceptedRecord(env: Env, s: Store, l: Loop, scope: ReviewMaterial.Scope, report: Report, w: Write)
    requires l.candidate.Some? && w in Accept(env, s, l, scope, report).writes && w.PutReview?
    ensures var h := l.candidate.value;
      w.key == Accepted(h, scope.id, s.calls) && w.record == RecordOf(env, s, l, h, scope, report) && w.record.scope == scope && w.record.candidate == h
  {
    hide BlockingOnly, WithReview, Asked, Omissions;
  }

  lemma ReportedStay(s: Store, w: Write)
    requires AllReported(s) && !Has(s, w) && !Conflicts(s, w)
    requires w.PutReview? ==> IsReported(Do(s, w), w.key)
    ensures AllReported(Do(s, w))
  {
    hide SaysReport;
    MadeOnce(s, w);
    var t := Do(s, w);
    forall key | key in t.reviews ensures IsReported(t, key) {
      if key in s.reviews {
        assert IsReported(s, key);
      }
    }
  }

  lemma OpenKeepsReports(env: Env, s: Store, k: nat)
    requires IsOpen(s) && PendingIsReserved(s) && AllReported(s) && k < |Intended(env, s).writes|
    requires var w := Intended(env, s).writes[k]; !Has(s, w) && !Conflicts(s, w)
    requires forall j | 0 <= j < k :: Has(s, Intended(env, s).writes[j])
    ensures AllReported(Do(s, Intended(env, s).writes[k]))
  {
    hide Turn, Intended, AllReported, IsReported, Do, Conflicts;
    var a := TurnCourse(env, s);
    var call, ws, w := s.loop.pending.value, Intended(env, s).writes, Intended(env, s).writes[k];
    if w.PutReview? {
      assert ws[0].PutReply? && Has(s, ws[0]);
      assert w == a.writes[k - 1];
      FiledIsReported(env, s, ReplyOf(env, s, call.slot), w);
    }
    ReportedStay(s, w);
  }

  // ----- findings between checkpoints

  /** Until the checkpoint moves on, findings are those of the turn. */
  ghost predicate Findings(env: Env, s: Store) {
    && FindingsKept(env, s, s.loop)
    && if s.loop.pending.None? then IsUndisturbed(s, s.loop)
      else if s.loop.pending.value.slot in s.turns then GoesOn(env, s, s.loop, s.turns[s.loop.pending.value.slot])
      else IsUndisturbedBut(s, s.loop.pending.value.slot, s.loop) && DraftIsOf(s, s.loop.pending.value.slot, TurnOf(env, s).writes)
  }

  /** An open store whose turn is `a`. */
  ghost predicate TakesTurn(env: Env, s: Store, a: Action) {
    s.loop.pending.Some? && s.loop.pending.value.slot !in s.turns && a == TurnOf(env, s) && StartsAt(env, s, s.loop.pending.value.slot, s.loop, a.writes)
  }

  /** The draft write of a turn. */
  ghost predicate IsItsDraft(s: Store, w: Write) {
    w.PutDraft? ==> s.loop.pending.Some? && IsNextDraft(s, s.loop.pending.value.slot, w)
  }

  lemma DraftDisturbs(env: Env, s: Store, w: Write, ws: seq<Write>)
    requires s.loop.pending.Some? && StartsAt(env, s, s.loop.pending.value.slot, s.loop, ws)
    requires w in ws && w.PutDraft? && IsItsDraft(s, w) && !Has(s, w) && !Conflicts(s, w)
    ensures var slot, t := s.loop.pending.value.slot, Do(s, w); IsUndisturbedBut(t, slot, s.loop) && DraftIsOf(t, slot, ws)
  {
    hide FindingsKept;
    CountedAreStored(env, s, s.loop);
    if s.loop.keys != [] {
      assert s.loop.keys[0] in s.loop.keys;
    }
  }

  lemma OtherWritesDisturbNothing(env: Env, s: Store, w: Write, ws: seq<Write>)
    requires s.loop.pending.Some? && StartsAt(env, s, s.loop.pending.value.slot, s.loop, ws) && !w.PutDraft? && !Has(s, w) && !Conflicts(s, w)
    ensures var slot, t := s.loop.pending.value.slot, Do(s, w); IsUndisturbedBut(t, slot, s.loop) && DraftIsOf(t, slot, ws)
  {
    hide FindingsKept;
    CountedAreStored(env, s, s.loop);
    MadeOnce(s, w);
    OtherWritesKeepDraft(s, w);
  }

  lemma OtherWritesKeepDraft(s: Store, w: Write)
    requires !w.PutDraft?
    ensures Do(s, w).current == s.current && Do(s, w).receipts == s.receipts
  {
  }

  lemma TurningKeepsFindings(env: Env, s: Store, w: Write, a: Action)
    requires TakesTurn(env, s, a) && !Has(s, w) && !Conflicts(s, w) && (w in a.writes || w.PutReply?) && IsItsDraft(s, w)
    requires var t := Do(s, w); t.loop == s.loop && t.turns == s.turns && TurnOf(env, t) == a
    ensures Findings(env, Do(s, w))
  {
    hide TurnOf, FindingsKept, IsUndisturbedBut, DraftIsOf, Has, Conflicts, Do, IsNextDraft;
    WriteGrows(s, w);
    FindingsGrow(env, s, Do(s, w), s.loop);
    if w.PutDraft? {
      DraftDisturbs(env, s, w, a.writes);
    } else {
      OtherWritesDisturbNothing(env, s, w, a.writes);
    }
  }

  lemma OpenTakesTurn(env: Env, s: Store)
    requires IsOpen(s) && Findings(env, s)
    ensures TakesTurn(env, s, TurnOf(env, s))
  {
    hide TurnOf, FindingsKept, IsUndisturbedBut, DraftIsOf;
  }

  lemma ReplyKeepsFindings(env: Env, s: Store, w: Write, a: Action)
    requires TakesTurn(env, s, a) && !Has(s, w) && !Conflicts(s, w)
    requires w == PutReply(s.loop.pending.value.slot, ReplyOf(env, s, s.loop.pending.value.slot))
    ensures Findings(env, Do(s, w))
  {
    hide Turn, StartsAt, Findings, Has, Conflicts;
    AlikeAfter(s, w);
    TurnAlike(env, s, Do(s, w), s.loop.pending.value, w.reply);
    TurningKeepsFindings(env, s, w, a);
  }

  lemma ActionKeepsFindings(env: Env, s: Store, k: nat, a: Action)
    requires TakesTurn(env, s, a) && k < |a.writes| && !Has(s, a.writes[k]) && !Conflicts(s, a.writes[k])
    requires forall j | 0 <= j < k :: Has(s, a.writes[j])
    ensures Findings(env, Do(s, a.writes[k]))
  {
    hide Turn, StartsAt, Findings, Has, Conflicts, Do, IsNextDraft;
    var call := s.loop.pending.value;
    var w := a.writes[k];
    TurnStable(env, s, call, ReplyOf(env, s, call.slot), k);
    KeepsLoop(s, w);
    SlotsOfTurn(env, s, call, ReplyOf(env, s, call.slot));
    assert w in a.writes;
    TurningKeepsFindings(env, s, w, a);
  }

  lemma RecordedKeepsFindings(env: Env, s: Store, a: Action)
    requires IsFaithful(env) && IsSafe(env, s) && TakesTurn(env, s, a) && a.ok && AllMade(s, a.writes)
    ensures Findings(env, Do(s, PutTurn(s.loop.pending.value.slot, a.loop)))
  {
    hide IsFaithful, LoopSafe, Turn, RecordsHonest, ActsOn, TurnIsSafe, ApprovalsEarned, StartsAt, AllMade, GoesOn, FindingsKept, Grows;
    var call := s.loop.pending.value;
    var t := Do(s, PutTurn(call.slot, a.loop));
    assert StartsAt(env, s, call.slot, s.loop, a.writes);
    TurnFindings(env, s, call, ReplyOf(env, s, call.slot));
    RecordingGrows(s, call.slot, a.loop);
    GoesOnGrows(env, s, t, s.loop, a.loop);
    StartIsKept(env, s, call.slot, s.loop, a.writes);
    FindingsGrow(env, s, t, s.loop);
  }

  lemma StartIsKept(env: Env, s: Store, slot: nat, l: Loop, ws: seq<Write>)
    requires StartsAt(env, s, slot, l, ws)
    ensures FindingsKept(env, s, l)
  {
    hide FindingsKept;
  }

  lemma RecordingGrows(s: Store, slot: nat, l: Loop)
    ensures Grows(s, Do(s, PutTurn(slot, l)))
  {
  }

  lemma OpenKeepsFindings(env: Env, s: Store, k: nat)
    requires IsFaithful(env) && IsSafe(env, s) && IsOpen(s) && Findings(env, s) && k < |Intended(env, s).writes|
    requires var w := Intended(env, s).writes[k]; !Has(s, w) && !Conflicts(s, w) && !w.PutCheckpoint?
    requires forall j | 0 <= j < k :: Has(s, Intended(env, s).writes[j])
    ensures Findings(env, Do(s, Intended(env, s).writes[k]))
  {
    hide IsFaithful, IsSafe, Turn, Has, Conflicts, Intended, Findings, TakesTurn, Do;
    OpenTakesTurn(env, s);
    var a := TurnCourse(env, s);
    var call, ws, w := s.loop.pending.value, Intended(env, s).writes, Intended(env, s).writes[k];
    if k == 0 {
      ReplyKeepsFindings(env, s, w, a);
    } else {
      forall j | 0 <= j < k - 1 && j < |a.writes| ensures Has(s, a.writes[j]) {
        assert ws[j + 1] == a.writes[j];
      }
      if k <= |a.writes| {
        assert w == a.writes[k - 1];
        ActionKeepsFindings(env, s, k - 1, a);
      } else {
        assert k == |a.writes| + 1 && w == PutTurn(call.slot, a.loop);
        RecordedKeepsFindings(env, s, a);
      }
    }
  }

  lemma ClosingKeepsFindings(env: Env, s: Store)
    requires Findings(env, s) && TurnIsSafe(env, s) && s.loop.pending.Some? && s.loop.pending.value.slot in s.turns
    ensures Findings(env, Do(s, PutCheckpoint(s.calls, s.turns[s.loop.pending.value.slot])))
  {
    hide LoopSafe, FindingsKept, Follows, TurnOf;
    var l := s.turns[s.loop.pending.value.slot];
    FindingsGrow(env, s, Do(s, PutCheckpoint(s.calls, l)), l);
  }

  lemma IdleKeepsFindings(env: Env, s: Store, w: Write)
    requires Findings(env, s) && s.loop.pending.None? && (w.PutPublished? || w.PutInput?)
    ensures Findings(env, Do(s, w))
  {
    hide FindingsKept, TurnOf;
    FindingsGrow(env, s, Do(s, w), s.loop);
  }

  lemma ReservingKeepsFindings(env: Env, s: Store, l: Loop)
    requires Findings(env, s) && s.loop.pending.None? && SameFindings(s.loop, l)
    requires l.pending.Some? && l.pending.value.slot !in s.turns && l.pending.value.slot !in s.receipts
    ensures Findings(env, Do(s, PutCheckpoint(s.calls + 1, l)))
  {
    hide FindingsKept, TurnOf;
    KeptAlike(env, s, s.loop, l);
    FindingsGrow(env, s, Do(s, PutCheckpoint(s.calls + 1, l)), l);
  }

  lemma PrepareKeepsFindings(env: Env, s: Store)
    requires Prepare(env, s).Some?
    ensures SameFindings(s.loop, Prepare(env, s).value.loop)
  {
  }

  // ----- one durable write

  /** The invariant of this module. */
  ghost predicate Told(env: Env, s: Store) {
    Inv(env, s) && Findings(env, s) && AllReported(s)
  }

  lemma NextSlotIsUnused(env: Env, s: Store)
    requires IsLedger(env, s)
    ensures s.calls !in s.turns && s.calls !in s.receipts && PendingIsReserved(s)
  {
  }

  /** What the checkpoint does in one step: it stays, a call is reserved, or a recorded turn closes. */
  ghost predicate MovesOn(env: Env, s: Store, t: Store) {
    || t.loop == s.loop
    || (s.loop.pending.None? && SameFindings(s.loop, t.loop))
    || (s.loop.pending.Some? && s.loop.pending.value.slot in s.turns && t.loop == s.turns[s.loop.pending.value.slot])
  }

  lemma StepKeepsFindings(env: Env, s: Store)
    requires IsFaithful(env) && IsSafe(env, s) && Findings(env, s) && IsLedger(env, s)
    ensures Findings(env, Step(env, s)) && MovesOn(env, s, Step(env, s))
  {
    hide IsFaithful, LoopSafe, Turn, Has, Conflicts, RecordsHonest, ActsOn, TurnIsSafe, ApprovalsEarned, Gate, Prepare, Findings, Intended, Do, IsLedger, SameFindings;
    NextSlotIsUnused(env, s);
    if RemainingWork(env, s) != [] {
      var k := FirstMissing(s, Intended(env, s).writes);
      var w := Intended(env, s).writes[k];
      CallAfter(s, w);
      if IsOpen(s) {
        OpenIsNoCheckpoint(env, s, k);
        OpenKeepsFindings(env, s, k);
      } else {
        IdleCourse(env, s);
        if s.loop.pending.Some? {
          ClosingKeepsFindings(env, s);
        } else if w.PutPublished? || w.PutInput? {
          IdleKeepsFindings(env, s, w);
        } else {
          PrepareKeepsFindings(env, s);
          PreparesNextSlot(env, s);
          ReserveAlike(Prepare(env, s).value.loop, w.loop, s.loop);
          ReservingKeepsFindings(env, s, w.loop);
        }
      }
    }
  }

  lemma ReserveAlike(l: Loop, l': Loop, l0: Loop)
    requires SameFindings(l0, l) && l' == l.(pending := l'.pending)
    ensures SameFindings(l0, l')
  {
  }

  lemma StepKeepsReports(env: Env, s: Store)
    requires IsLedger(env, s) && AllReported(s)
    ensures AllReported(Step(env, s))
  {
    hide Turn, Has, Conflicts, Gate, Prepare, Intended, Do, IsLedger, AllReported;
    NextSlotIsUnused(env, s);
    if RemainingWork(env, s) != [] {
      var k := FirstMissing(s, Intended(env, s).writes);
      if IsOpen(s) {
        OpenKeepsReports(env, s, k);
      } else {
        IdleCourse(env, s);
        ReportedStay(s, Intended(env, s).writes[k]);
      }
    }
  }

  lemma StepTold(env: Env, s: Store)
    requires IsFaithful(env) && Told(env, s)
    ensures Told(env, Step(env, s)) && MovesOn(env, s, Step(env, s))
  {
    hide IsFaithful, IsSafe, QuestionsKept, DraftsCounted, Step, Findings, AllReported, IsLedger, MovesOn;
    StepInv(env, s);
    StepKeepsFindings(env, s);
    StepKeepsReports(env, s);
  }

  lemma {:induction false} StepsTold(env: Env, s: Store, n: nat)
    requires IsFaithful(env) && Told(env, s)
    ensures Told(env, Steps(env, s, n))
    decreases n
  {
    hide IsFaithful, Told, Step;
    if n > 0 {
      StepTold(env, s);
      StepsTold(env, Step(env, s), n - 1);
    }
  }

  // ----- whole runs

  /** Before the first call nothing was found. */
  ghost predicate NothingFoundYet(l: Loop) {
    l.keys == [] && l.issues == [] && l.blocked == map[]
  }

  lemma InitialTold(env: Env, s: Store)
    requires IsFaithful(env) && IsInitial(env, s) && NothingFoundYet(s.loop)
    ensures Told(env, s)
  {
    hide IsFaithful, Inv;
    InitialInv(env, s);
  }

  /** With nothing left to review, a candidate has no blocking finding. */
  lemma ConcludedIsUnblocked(env: Env, s: Store)
    requires Inv(env, s) && FindingsKept(env, s, s.loop) && s.loop.candidate.Some? && s.loop.scopes == []
    ensures !IsBlocking(s.loop.issues)
  {
    hide IsLedger, DraftsCounted, QuestionsKept, PlanSafe, LoopCoverage.NamedBelow, RecordsHonest, KeysHold, NothingForgotten, DecidedIds, ReviewWork.IsWork, ReviewsRelations, TurnIsSafe, ReviewPlans.AsksOnce, DecidesOnce, WasBlocked, IsOfSome, IsJudged, Gate;
    var h := s.loop.candidate.value;
    assert IsEarned(env, s, s.approvals[h]);
    forall key | key in s.loop.keys ensures key in s.reviews && !IsBlocking(s.reviews[key].issues) {
      assert RecordPasses(env, s, h, key);
    }
    UnblockedFindings(s, h, s.loop.keys, s.loop.issues);
  }

  lemma UnblockedFindings(s: Store, h: Article, keys: seq<Key>, issues: seq<Issue>)
    requires AreFindings(s, h, keys, issues) && forall key | key in keys :: key in s.reviews && !IsBlocking(s.reviews[key].issues)
    ensures !IsBlocking(issues)
  {
    forall i | i in issues ensures !i.blocking {
      assert FoundBy(s, keys, i);
    }
  }

  /** MAIN RESULT: in every store that is reached, each review says what the model reported. While a
      candidate is reviewed, its findings are those of its counted reviews, and none of them blocks once
      nothing is left to review. Without a candidate, the author has exactly the blocking findings of a
      complete review, and those of the last one as long as it counts. */
  lemma FindingsReachTheAuthor(env: Env, s: Store, crashes: seq<nat>)
    requires IsFaithful(env) && IsInitial(env, s) && NothingFoundYet(s.loop)
    ensures var t := Run(env, s, crashes);
      && AllReported(t) && FindingsKept(env, t, t.loop)
      && (t.loop.candidate.Some? && t.loop.scopes == [] ==> !IsBlocking(t.loop.issues))
  {
    hide IsFaithful, IsInitial, Run, Inv, Steps, FindingsKept, AllReported;
    InitialTold(env, s);
    CrashesDoNotMatter(env, s, crashes);
    StepsTold(env, s, Made(env, s, crashes));
    var t := Run(env, s, crashes);
    if t.loop.candidate.Some? && t.loop.scopes == [] {
      ConcludedIsUnblocked(env, t);
    }
  }

  /** A candidate is given up only by a complete review that blocks it and counts all its reviews; its
      blocking findings are with the author then. */
  lemma CandidateIsJudged(env: Env, s: Store)
    requires IsFaithful(env) && Told(env, s) && s.loop.candidate.Some?
    ensures var t := Step(env, s);
      && (forall key | key in s.loop.keys :: key in t.loop.keys)
      && (t.loop.candidate == s.loop.candidate || IsJudged(env, t, t.loop, s.loop.candidate.value))
  {
    hide IsFaithful, Inv, Step, FindingsKept, IsJudged, AllReported, IsUndisturbed, IsUndisturbedBut, DraftIsOf, TurnOf;
    StepTold(env, s);
    StepGrows(env, s);
    var t := Step(env, s);
    if t.loop.candidate != s.loop.candidate {
      JudgedGrows(env, s, t, t.loop, s.loop.candidate.value);
    }
  }

  lemma StepGrows(env: Env, s: Store)
    ensures Grows(s, Step(env, s))
  {
    hide Intended, Has, Conflicts, Do, Grows;
    if RemainingWork(env, s) != [] {
      var k := FirstMissing(s, Intended(env, s).writes);
      WriteGrows(s, Intended(env, s).writes[k]);
    } else {
      GrowsItself(s);
    }
  }

  lemma GrowsItself(s: Store)
    ensures Grows(s, s)
  {
  }

  /** Without a candidate, no verdict is forgotten; and the findings of the last one stay while the draft
      is the one that was judged. */
  lemma VerdictStays(env: Env, s: Store)
    requires IsFaithful(env) && Told(env, s) && s.loop.candidate.None? && Step(env, s).loop.candidate.None?
    ensures var t := Step(env, s);
      && t.loop.blocked == s.loop.blocked
      && (s.loop.keys != [] && s.current.version == s.loop.draftVersion ==>
            t.loop.keys == s.loop.keys && t.loop.issues == s.loop.issues && t.loop.draftVersion == s.loop.draftVersion)
  {
    hide IsFaithful, Inv, Step, FindingsKept, IsJudged, AllReported, IsUndisturbed, IsUndisturbedBut, DraftIsOf, TurnOf;
    StepTold(env, s);
  }

  /** As long as no candidate is frozen and the draft is the one that was judged, no later store drops or
      adds a finding. */
  lemma {:induction false} FindingsStay(env: Env, s: Store, n: nat)
    requires IsFaithful(env) && Told(env, s) && s.loop.keys != [] && s.current.version == s.loop.draftVersion
    requires forall m: nat | m <= n :: Steps(env, s, m).loop.candidate.None? && Steps(env, s, m).current == s.current
    ensures var l := Steps(env, s, n).loop; l.issues == s.loop.issues && l.keys == s.loop.keys && l.blocked == s.loop.blocked
    decreases n
  {
    hide IsFaithful, Told, Step;
    if n > 0 {
      var t := Step(env, s);
      assert Steps(env, s, 0) == s && Steps(env, s, 1) == t;
      StepTold(env, s);
      VerdictStays(env, s);
      forall m: nat | m <= n - 1 ensures Steps(env, t, m).loop.candidate.None? && Steps(env, t, m).current == t.current {
        assert Steps(env, t, m) == Steps(env, s, m + 1);
      }
      FindingsStay(env, t, n - 1);
    }
  }

  // ----- what an approval rests on

  /** The call that a review goes back to, also when it was rebound. */
  function Origin(s: Store, key: Key): Key
    requires key in s.reviews
  {
    if s.reviews[key].reusedFrom.Some? then s.reviews[key].reusedFrom.value else key
  }

  /** The model reported on this very scope and material, and found nothing that blocks or is missing. */
  ghost predicate IsCleared(env: Env, s: Store, h: Article, key: Key) {
    && key in s.reviews
    && var r, o := s.reviews[key], Origin(s, key);
      && o.Accepted? && o in s.reviews && s.reviews[o].scope == r.scope && r.material == Material(env.judged(h, r.scope), r.scope)
      && s.reviews[o].material == r.material && IsReportOf(s, o.calls - 1, o.candidate, s.reviews[o])
      && (forall i | i in s.replies[o.calls - 1].report.issues :: !i.blocking)
      && forall d | d in s.replies[o.calls - 1].report.decisions :: d.verdict == Covered
  }

  lemma UnblockedReport(r: Record, report: Report)
    requires SaysReport(r, report) && !IsBlocking(r.issues) && IsComplete(r.scope, r.asked, |r.questions|, r.decisions)
    requires !exists d | d in r.decisions :: d.verdict == Missing
    ensures (forall i | i in report.issues :: !i.blocking) && forall d | d in report.decisions :: d.verdict == Covered
  {
  }

  lemma PassingIsCleared(env: Env, s: Store, h: Article, key: Key)
    requires AllReported(s) && RecordsHonest(env, s) && RecordPasses(env, s, h, key)
    ensures IsCleared(env, s, h, key)
  {
    hide ReviewTasks.HoldsFrames, SaysReport, IsComplete, IsBlocking;
    var o := Origin(s, key);
    assert RecordHonest(env, s, key) && RecordHonest(env, s, o) && IsReported(s, o);
    UnblockedReport(s.reviews[o], s.replies[o.calls - 1].report);
  }

  /** In every store that is reached, an approval rests on reports of the model that found nothing. */
  lemma ApprovalsRestOnReports(env: Env, s: Store, crashes: seq<nat>)
    requires IsFaithful(env) && IsInitial(env, s) && NothingFoundYet(s.loop)
    ensures var t := Run(env, s, crashes); forall h, key | h in t.approvals && key in t.approvals[h].keys :: IsCleared(env, t, h, key)
  {
    hide IsFaithful, IsInitial, Run, Steps, FindingsKept, AllReported, IsCleared, LoopSafe, ActsOn, TurnIsSafe, RecordsHonest, RecordPasses, Gate, QuestionsKept, IsLedger, DraftsCounted;
    InitialTold(env, s);
    CrashesDoNotMatter(env, s, crashes);
    StepsTold(env, s, Made(env, s, crashes));
    var t := Run(env, s, crashes);
    forall h, key | h in t.approvals && key in t.approvals[h].keys ensures IsCleared(env, t, h, key) {
      EarnedBy(env, t, h);
      PassingIsCleared(env, t, h, key);
    }
  }
}
