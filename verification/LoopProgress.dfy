/** Duties over whole runs, with any crashes: a candidate was read and planned in full, a blocked draft is
    reviewed again once, repairs and invalid replies are limited, and a review is delivered what it judges
    (internal/investigator/article_loop.go, article_loop_input.go, article_loop_convergence.go). */
module LoopProgress {
  import opened Lists
  import opened Wrappers
  import opened ArticleLoop
  import opened LoopRecovery
  import opened LoopSafety
  import opened LoopSteps
  import opened LoopQuestions
  import opened LoopRuns
  import opened LoopFindings
  import opened LoopVerdicts
  import opened LoopDuties
  import ReviewEvidence
  import ReviewMaterial
  import ReviewTasks
  import ReviewWork

  // ----- what was delivered

  /** One of the first `n` calls delivered the original, and its reply was not cut off. */
  ghost predicate WasDelivered(s: Store, n: nat, id: string) {
    exists k: nat :: k < n && k in s.inputs && k in s.replies && !IsCut(s.replies[k]) && id in s.inputs[k].sources
  }

  /** One of the first `n` calls was to plan the original, and was answered by a plan. */
  ghost predicate WasPlanned(s: Store, n: nat, id: string) {
    exists k: nat :: k < n && k in s.inputs && k in s.replies && s.inputs[k].mode.Source? && s.replies[k].SourcePlan? && id in s.inputs[k].sources
  }

  ghost function DeliveredPositions(transcript: seq<string>, scope: ReviewMaterial.Scope): set<nat> {
    set i: nat | i < |transcript| && (transcript[i] in scope.sourceIds || transcript[i] in scope.contextSourceIds)
  }

  /** A review is delivered the originals that it judges and their context, as the transcript has them. */
  ghost predicate DeliversScope(transcript: seq<string>, call: Call) {
    call.mode.Review? ==> ReviewEvidence.Picks(transcript, DeliveredPositions(transcript, call.mode.scope), call.sources)
  }

  lemma DeliveryPicks(transcript: seq<string>, scope: ReviewMaterial.Scope)
    ensures ReviewEvidence.Picks(transcript, DeliveredPositions(transcript, scope), InOrder(transcript, Elements(scope.sourceIds) + Elements(scope.contextSourceIds)))
  {
    hide ReviewEvidence.Picks;
    var keep := Elements(scope.sourceIds) + Elements(scope.contextSourceIds);
    ReviewEvidence.InOrderPicks(transcript, keep, |transcript|);
    assert transcript[..|transcript|] == transcript;
    ReviewEvidence.PicksAlike(transcript, ReviewEvidence.PositionsIn(transcript, keep), DeliveredPositions(transcript, scope), InOrder(transcript, keep));
  }

  // ----- the state of the loop

  /** A disputed draft is blocked, and a candidate that is blocked is disputed. */
  ghost predicate DisputesKept(l: Loop) {
    && (l.challenged.Some? ==> l.challenged.value in l.disputes)
    && (l.candidate.Some? && IsBlocked(l, l.candidate.value) ==> l.challenged == l.candidate)
  }

  ghost predicate Limited(l: Loop) {
    l.repairActions <= REPAIR_LIMIT && forall p | p in l.failures :: l.failures[p] <= PROTOCOL_LIMIT
  }

  ghost predicate DutyAt(env: Env, s: Store, l: Loop, n: nat) {
    && (forall id :: id in l.read <==> WasDelivered(s, n, id)) && (forall id :: id in l.planned <==> WasPlanned(s, n, id))
    && (l.candidate.Some? ==> AllIn(env.transcript, l.read)) && DisputesKept(l) && Limited(l)
  }

  /** The call was reserved within the limits. */
  ghost predicate IsWithin(env: Env, l: Loop, call: Call) {
    match call.mode
    case Source => !Exceeds(l.failures, SourceProtocol)
    case Review(scope) => !Exceeds(l.failures, ReviewProtocol(l.candidate, scope.id))
    case Author => l.issues == [] || l.repairActions < REPAIR_LIMIT
  }

  lemma LimitedMore(env: Env, s: Store, l: Loop, call: Call, reply: Reply, l': Loop)
    requires Limited(l) && IsWithin(env, l, call) && DoesMost(env, s, l, call, reply, l')
    ensures Limited(l')
  {
    hide IsAdmitted, Freezes, Disputes, DisputedAfter;
  }

  lemma DisputesKeptOn(env: Env, s: Store, l: Loop, call: Call, reply: Reply, l': Loop)
    requires DisputesKept(l) && DoesMost(env, s, l, call, reply, l')
    ensures DisputesKept(l')
  {
    hide Notes, Asks, AllIn;
  }

  lemma DeliveredMore(s: Store, n: nat, id: string)
    ensures WasDelivered(s, n + 1, id) <==> WasDelivered(s, n, id) || (n in s.inputs && n in s.replies && !IsCut(s.replies[n]) && id in s.inputs[n].sources)
    ensures WasPlanned(s, n + 1, id) <==> WasPlanned(s, n, id) || (n in s.inputs && n in s.replies && s.inputs[n].mode.Source? && s.replies[n].SourcePlan? && id in s.inputs[n].sources)
  {
  }

  /** A recorded turn keeps the duties of the loop. */
  lemma DutyMoves(env: Env, s: Store, l: Loop, l': Loop, n: nat)
    requires DutyAt(env, s, l, n) && n in s.inputs && n in s.replies && IsWithin(env, l, s.inputs[n]) && DoesMost(env, s, l, s.inputs[n], s.replies[n], l')
    ensures DutyAt(env, s, l', n + 1)
  {
    hide WasDelivered, WasPlanned, Freezes, Disputes, DisputedAfter, DisputesKept, Limited, Invalid, IsWithin, IsCut, AllIn;
    var call, reply := s.inputs[n], s.replies[n];
    LimitedMore(env, s, l, call, reply, l');
    DisputesKeptOn(env, s, l, call, reply, l');
    PlansAreWhole(reply);
    forall id ensures (id in l'.read <==> WasDelivered(s, n + 1, id)) && (id in l'.planned <==> WasPlanned(s, n + 1, id)) {
      DeliveredMore(s, n, id);
    }
    if l'.candidate.Some? {
      FrozenWasRead(env, s, l, call, reply, l');
    }
  }

  lemma PlansAreWhole(reply: Reply)
    ensures reply.SourcePlan? ==> !IsCut(reply)
  {
  }

  lemma FrozenWasRead(env: Env, s: Store, l: Loop, call: Call, reply: Reply, l': Loop)
    requires DoesMost(env, s, l, call, reply, l') && l'.candidate.Some? && (l.candidate.Some? ==> AllIn(env.transcript, l.read))
    ensures AllIn(env.transcript, l'.read)
  {
    hide Asks, Disputes, DisputedAfter, Invalid;
  }

  // ----- between checkpoints

  function SlotOf(s: Store): nat {
    if s.loop.pending.Some? then s.loop.pending.value.slot else s.calls
  }

  ghost predicate InputsDeliver(env: Env, s: Store) {
    forall k | k in s.inputs :: DeliversScope(env.transcript, s.inputs[k])
  }

  /** Before its call is reserved, an input is the one that is prepared. */
  ghost predicate InputIsNext(env: Env, s: Store) {
    s.calls in s.inputs ==> s.loop.pending.None? && Prepare(env, s).Some? && s.inputs[s.calls] == Prepare(env, s).value.call
  }

  ghost predicate Duty(env: Env, s: Store) {
    && DutyAt(env, s, s.loop, SlotOf(s)) && InputsDeliver(env, s) && InputIsNext(env, s)
    && (s.loop.pending.Some? ==> IsWithin(env, s.loop, s.loop.pending.value))
    && (s.loop.pending.Some? && s.loop.pending.value.slot in s.turns ==>
          var slot := s.loop.pending.value.slot;
            slot in s.replies && Does(env, s, s.loop, s.loop.pending.value, s.replies[slot], s.turns[slot]) && DutyAt(env, s, s.turns[slot], slot + 1))
  }

  /** The calls before `n` are as they were. */
  ghost predicate SameCalls(s: Store, t: Store, n: nat) {
    forall k: nat | k < n :: (k in t.inputs <==> k in s.inputs) && (k in t.replies <==> k in s.replies) && (k in s.inputs ==> t.inputs[k] == s.inputs[k]) && (k in s.replies ==> t.replies[k] == s.replies[k])
  }

  lemma DutyStays(env: Env, s: Store, t: Store, l: Loop, l': Loop, n: nat)
    requires DutyAt(env, s, l, n) && SameCalls(s, t, n) && l'.read == l.read && l'.planned == l.planned && l'.candidate == l.candidate
    requires l'.challenged == l.challenged && l'.disputes == l.disputes && l'.blocked == l.blocked && l'.repairActions == l.repairActions && l'.failures == l.failures
    ensures DutyAt(env, t, l', n)
  {
    hide AllIn;
    forall id ensures (WasDelivered(t, n, id) <==> WasDelivered(s, n, id)) && (WasPlanned(t, n, id) <==> WasPlanned(s, n, id)) {
      SameDelivered(s, t, n, id);
    }
  }

  lemma SameDelivered(s: Store, t: Store, n: nat, id: string)
    requires SameCalls(s, t, n)
    ensures (WasDelivered(t, n, id) <==> WasDelivered(s, n, id)) && (WasPlanned(t, n, id) <==> WasPlanned(s, n, id))
  {
  }

  // ----- one durable write

  lemma PrepareDoes(env: Env, s: Store)
    requires IsFaithful(env) && Prepare(env, s).Some?
    ensures var p := Prepare(env, s).value;
      && p.loop == s.loop.(scopes := p.loop.scopes, plan := p.loop.plan) && IsWithin(env, p.loop, p.call) && DeliversScope(env.transcript, p.call)
  {
    hide IsFaithful, AllIn, Exceeds;
    var p := Prepare(env, s).value;
    if p.call.mode.Review? {
      var l, h := s.loop, s.current.article;
      var first := env.ready(l, h).value.scopes[0];
      DressWell(env, l, h, first);
      DeliveryPicks(env.transcript, p.call.mode.scope);
    }
  }

  /** The turn of an open store is recorded. */
  lemma RecordedKeepsDuty(env: Env, s: Store)
    requires IsFaithful(env) && IsSafe(env, s) && Findings(env, s) && Duty(env, s) && PendingIsReserved(s) && IsOpen(s)
    requires var a, slot := TurnOf(env, s), s.loop.pending.value.slot; a.ok && AllMade(s, a.writes) && slot in s.replies
    ensures Duty(env, Do(s, PutTurn(s.loop.pending.value.slot, TurnOf(env, s).loop)))
  {
    hide IsFaithful, LoopSafe, Turn, RecordsHonest, TurnIsSafe, ApprovalsEarned, AllMade, DutyAt, FindingsKept, IsUndisturbedBut, DraftIsOf, IsWithin, DeliversScope, DoesMost, Progresses, ReviewsFirst, SameCalls;
    var call := s.loop.pending.value;
    var reply, a := ReplyOf(env, s, call.slot), TurnOf(env, s);
    var t := Do(s, PutTurn(call.slot, a.loop));
    TurnDoes(env, s, call, reply);
    DutyMoves(env, s, s.loop, a.loop, call.slot);
    assert SameCalls(s, t, call.slot) && SameCalls(s, t, call.slot + 1) by { RecordingKeepsCalls(s, call.slot, a.loop, call.slot); RecordingKeepsCalls(s, call.slot, a.loop, call.slot + 1); }
    DutyStays(env, s, t, s.loop, s.loop, call.slot);
    DutyStays(env, s, t, a.loop, a.loop, call.slot + 1);
    DoesInStore(env, s, t, s.loop, call, reply, a.loop);
  }

  lemma RecordingKeepsCalls(s: Store, slot: nat, l: Loop, n: nat)
    ensures SameCalls(s, Do(s, PutTurn(slot, l)), n)
  {
  }

  lemma DoesInStore(env: Env, s: Store, t: Store, l: Loop, call: Call, reply: Reply, l': Loop)
    requires Does(env, s, l, call, reply, l') && t.current == s.current && t.receipts == s.receipts && t.plans == s.plans
    ensures Does(env, t, l, call, reply, l')
  {
    hide Invalid, AllIn;
  }

  lemma PrepareAlike(env: Env, s: Store, t: Store)
    requires t.loop == s.loop && t.calls == s.calls && t.current == s.current
    ensures Prepare(env, t) == Prepare(env, s)
  {
    hide AllIn, Exceeds;
  }

  /** A write that is neither an input nor a turn nor a checkpoint. */
  lemma WritingKeepsDuty(env: Env, s: Store, w: Write)
    requires Duty(env, s) && !w.PutInput? && !w.PutTurn? && !w.PutCheckpoint? && !Has(s, w) && !Conflicts(s, w)
    requires if s.loop.pending.Some? then s.loop.pending.value.slot !in s.turns else w.PutPublished?
    requires w.PutReply? ==> s.loop.pending.Some? && w.slot == s.loop.pending.value.slot
    ensures Duty(env, Do(s, w))
  {
    hide DutyAt, IsWithin, DeliversScope, Does, Prepare;
    var t := Do(s, w);
    assert t.loop == s.loop && t.inputs == s.inputs && t.turns == s.turns && t.calls == s.calls;
    if w.PutPublished? {
      PrepareAlike(env, s, t);
    }
    DutyStays(env, s, t, s.loop, s.loop, SlotOf(s));
  }

  lemma InputKeepsDuty(env: Env, s: Store, call: Call)
    requires Duty(env, s) && s.loop.pending.None? && call.slot == s.calls && DeliversScope(env.transcript, call)
    requires Prepare(env, s).Some? && call == Prepare(env, s).value.call
    ensures Duty(env, Do(s, PutInput(call)))
  {
    hide DutyAt, IsWithin, DeliversScope, Prepare;
    var t := Do(s, PutInput(call));
    PrepareAlike(env, s, t);
    DutyStays(env, s, t, s.loop, s.loop, s.calls);
  }

  lemma ReservingKeepsDuty(env: Env, s: Store, l: Loop)
    requires Duty(env, s) && s.loop.pending.None? && l.pending.Some? && l.pending.value.slot == s.calls && s.calls !in s.turns
    requires l == s.loop.(scopes := l.scopes, plan := l.plan, pending := l.pending) && IsWithin(env, l, l.pending.value) && s.calls + 1 !in s.inputs
    ensures Duty(env, Do(s, PutCheckpoint(s.calls + 1, l)))
  {
    hide DutyAt, IsWithin, DeliversScope;
    var t := Do(s, PutCheckpoint(s.calls + 1, l));
    DutyStays(env, s, t, s.loop, l, s.calls);
  }

  lemma ClosingKeepsDuty(env: Env, s: Store)
    requires Duty(env, s) && PendingIsReserved(s) && TurnIsSafe(env, s) && s.loop.pending.Some? && s.loop.pending.value.slot in s.turns
    ensures Duty(env, Do(s, PutCheckpoint(s.calls, s.turns[s.loop.pending.value.slot])))
  {
    hide DutyAt, IsWithin, DeliversScope, Does, LoopSafe;
    var l := s.turns[s.loop.pending.value.slot];
    var t := Do(s, PutCheckpoint(s.calls, l));
    DutyStays(env, s, t, l, l, s.calls);
  }

  lemma OpenKeepsDuty(env: Env, s: Store, k: nat)
    requires IsFaithful(env) && IsSafe(env, s) && Findings(env, s) && Duty(env, s) && PendingIsReserved(s) && IsOpen(s) && k < |Intended(env, s).writes|
    requires var w := Intended(env, s).writes[k]; !Has(s, w) && !Conflicts(s, w) && !w.PutCheckpoint?
    requires forall j | 0 <= j < k :: Has(s, Intended(env, s).writes[j])
    ensures Duty(env, Do(s, Intended(env, s).writes[k]))
  {
    hide IsFaithful, IsSafe, Turn, Has, Conflicts, Intended, Findings, Duty, Do;
    var a := TurnCourse(env, s);
    var call, ws, w := s.loop.pending.value, Intended(env, s).writes, Intended(env, s).writes[k];
    if k <= |a.writes| {
      WritingKeepsDuty(env, s, w);
    } else {
      assert k == |a.writes| + 1 && w == PutTurn(call.slot, a.loop);
      forall j | 0 <= j < |a.writes| ensures Has(s, a.writes[j]) {
        assert ws[j + 1] == a.writes[j];
      }
      assert Has(s, ws[0]);
      ReplyIsThere(s, ws[0]);
      RecordedKeepsDuty(env, s);
    }
  }

  lemma ReplyIsThere(s: Store, w: Write)
    requires Has(s, w) && w.PutReply?
    ensures w.slot in s.replies
  {
  }

  lemma StepKeepsDuty(env: Env, s: Store)
    requires IsFaithful(env) && IsSafe(env, s) && Findings(env, s) && Duty(env, s) && IsLedger(env, s)
    ensures Duty(env, Step(env, s))
  {
    hide IsFaithful, LoopSafe, Turn, Has, Conflicts, RecordsHonest, ActsOn, TurnIsSafe, ApprovalsEarned, Gate, Prepare, Findings, Intended, Do, IsLedger, Duty;
    NextSlotIsUnused(env, s);
    if RemainingWork(env, s) != [] {
      var k := FirstMissing(s, Intended(env, s).writes);
      var w := Intended(env, s).writes[k];
      if IsOpen(s) {
        OpenIsNoCheckpoint(env, s, k);
        OpenKeepsDuty(env, s, k);
      } else {
        IdleCourse(env, s);
        if s.loop.pending.Some? {
          ClosingKeepsDuty(env, s);
        } else if w.PutPublished? {
          WritingKeepsDuty(env, s, w);
        } else {
          PrepareDoes(env, s);
          PreparesNextSlot(env, s);
          if w.PutInput? {
            InputKeepsDuty(env, s, w.call);
          } else {
            InputsAreBefore(env, s);
            WithinAlike(env, Prepare(env, s).value.loop, w.loop, Prepare(env, s).value.call);
            ReservingKeepsDuty(env, s, w.loop);
          }
        }
      }
    }
  }

  lemma InputsAreBefore(env: Env, s: Store)
    requires IsLedger(env, s)
    ensures s.calls + 1 !in s.inputs
  {
  }

  lemma WithinAlike(env: Env, l: Loop, l': Loop, call: Call)
    requires IsWithin(env, l, call) && l' == l.(pending := l'.pending)
    ensures IsWithin(env, l', call)
  {
  }

  // ----- whole runs

  ghost predicate Dutiful(env: Env, s: Store) {
    Told(env, s) && Duty(env, s)
  }

  /** Before the first call nothing was delivered, counted or disputed. */
  ghost predicate NothingDoneYet(l: Loop) {
    l.read == {} && l.planned == {} && l.disputes == {} && l.challenged == None && l.repairActions == 0 && l.failures == map[]
  }

  lemma InitialDuty(env: Env, s: Store)
    requires IsFaithful(env) && IsInitial(env, s) && NothingFoundYet(s.loop) && NothingDoneYet(s.loop)
    ensures Dutiful(env, s)
  {
    hide IsFaithful, Told;
    InitialTold(env, s);
  }

  lemma StepDutiful(env: Env, s: Store)
    requires IsFaithful(env) && Dutiful(env, s)
    ensures Dutiful(env, Step(env, s)) && MovesOn(env, s, Step(env, s))
  {
    hide IsFaithful, IsSafe, QuestionsKept, DraftsCounted, Step, Findings, AllReported, IsLedger, Duty, MovesOn;
    StepTold(env, s);
    StepKeepsDuty(env, s);
  }

  lemma {:induction false} StepsDutiful(env: Env, s: Store, n: nat)
    requires IsFaithful(env) && Dutiful(env, s)
    ensures Dutiful(env, Steps(env, s, n))
    decreases n
  {
    hide IsFaithful, Dutiful, Step;
    if n > 0 {
      StepDutiful(env, s);
      StepsDutiful(env, Step(env, s), n - 1);
    }
  }

  /** Every original was delivered to the model, and planned. */
  ghost predicate WasReadInFull(env: Env, s: Store) {
    forall id | id in env.transcript :: WasDelivered(s, s.calls, id) && WasPlanned(s, s.calls, id)
  }

  /** MAIN RESULT: in every store that is reached, a candidate and, at a checkpoint, an approved article
      were made from originals that were all delivered and planned; a blocked candidate is disputed;
      repairs and invalid replies keep their limits; and every review was delivered what it judges. */
  lemma EveryRunIsDutiful(env: Env, s: Store, crashes: seq<nat>)
    requires IsFaithful(env) && IsInitial(env, s) && NothingFoundYet(s.loop) && NothingDoneYet(s.loop)
    ensures var t := Run(env, s, crashes);
      && (t.loop.candidate.Some? ==> WasReadInFull(env, t)) && (t.loop.pending.None? && t.approvals != map[] ==> WasReadInFull(env, t))
      && DisputesKept(t.loop) && Limited(t.loop) && InputsDeliver(env, t)
  {
    hide IsFaithful, IsInitial, Run, Steps, DutyAt, Told, NothingFoundYet, NothingDoneYet, IsWithin, Does, DeliversScope, WasReadInFull, DisputesKept, Limited;
    InitialDuty(env, s);
    CrashesDoNotMatter(env, s, crashes);
    StepsDutiful(env, s, Made(env, s, crashes));
    DutifulIs(env, Run(env, s, crashes));
  }

  lemma DutifulIs(env: Env, t: Store)
    requires Dutiful(env, t)
    ensures (t.loop.candidate.Some? ==> WasReadInFull(env, t)) && (t.loop.pending.None? && t.approvals != map[] ==> WasReadInFull(env, t))
    ensures DisputesKept(t.loop) && Limited(t.loop) && InputsDeliver(env, t)
  {
    hide Findings, AllReported, DisputesKept, Limited, DeliversScope, Does, IsWithin, WasDelivered, WasPlanned, TurnIsSafe, RecordsHonest, ApprovalsEarned, PlanSafe, DraftsCounted, TurnOf, IsKept, IsKeptBut, Gate, KeysHold, NothingForgotten, IsConcluded, ReviewWork.IsWork, DecidedIds, ActsOn;
    if t.loop.candidate.Some? {
      forall id | id in env.transcript ensures WasDelivered(t, t.calls, id) && WasPlanned(t, t.calls, id) {
        assert id in t.loop.read && id in t.loop.planned;
        DeliveredLater(t, SlotOf(t), t.calls, id);
      }
    }
    if t.loop.pending.None? && t.approvals != map[] {
      var h :| h in t.approvals;
      assert Approves(t.loop, h);
    }
  }

  lemma DeliveredLater(s: Store, m: nat, n: nat, id: string)
    requires m <= n && WasDelivered(s, m, id) && WasPlanned(s, m, id)
    ensures WasDelivered(s, n, id) && WasPlanned(s, n, id)
  {
  }

  /** A recorded author turn froze its draft exactly when it may; and it counted as a repair exactly when
      findings were open. */
  lemma FrozenExactly(env: Env, s: Store)
    requires Dutiful(env, s) && s.loop.pending.Some? && s.loop.pending.value.mode.Author? && s.loop.pending.value.slot in s.turns
    ensures var slot := s.loop.pending.value.slot; slot in s.replies && var l, l', reply := s.loop, s.turns[slot], s.replies[slot];
      && l'.candidate == (if Freezes(env, s, slot, l, reply, l'.read) then Some(s.current.article) else None)
      && l'.repairActions == (if IsRepair(l, l.pending.value, reply) then l.repairActions + 1 else l.repairActions)
  {
    hide Told, DutyAt, Notes, Freezes, IsRepair, DeliversScope, IsWithin;
  }

  /** A draft is disputed once in a run: its review is reopened at most once. */
  lemma DisputedOnce(env: Env, s: Store, h: Article)
    requires IsFaithful(env) && Dutiful(env, s)
    ensures var l, l' := s.loop, Step(env, s).loop;
      && l.disputes <= l'.disputes && (l'.challenged == Some(h) && l.challenged != Some(h) ==> h !in l.disputes && h in l'.disputes)
  {
    hide IsFaithful, DutyAt, Step, Notes, AllIn, DeliversScope, IsWithin, Progresses, Asks, IsSafe, QuestionsKept, DraftsCounted, Findings, AllReported, IsLedger, Duty;
    StepDutiful(env, s);
    StepDisputes(env, s);
    var t := Step(env, s);
    if t.loop != s.loop && s.loop.pending.Some? {
      TurnDisputes(env, s, h);
    }
  }

  lemma TurnDisputes(env: Env, s: Store, h: Article)
    requires Duty(env, s) && s.loop.pending.Some? && s.loop.pending.value.slot in s.turns
    ensures var l, l' := s.loop, s.turns[s.loop.pending.value.slot];
      && l.disputes <= l'.disputes && (l'.challenged == Some(h) && l.challenged != Some(h) ==> h !in l.disputes && h in l'.disputes)
  {
    hide DutyAt, Notes, DeliversScope, IsWithin, Progresses, Freezes;
  }

  /** Reserving a call disputes nothing. */
  lemma StepDisputes(env: Env, s: Store)
    requires IsFaithful(env) && IsLedger(env, s)
    ensures var l, l' := s.loop, Step(env, s).loop;
      l' == l || (l.pending.Some? && l.pending.value.slot in s.turns && l' == s.turns[l.pending.value.slot]) || (l.pending.None? && l'.disputes == l.disputes && l'.challenged == l.challenged)
  {
    hide IsFaithful, Turn, Has, Conflicts, Gate, Prepare, Intended, Do, IsLedger, IsWithin, DeliversScope;
    if RemainingWork(env, s) != [] {
      var k := FirstMissing(s, Intended(env, s).writes);
      CallAfter(s, Intended(env, s).writes[k]);
      if IsOpen(s) {
        OpenIsNoCheckpoint(env, s, k);
      } else {
        IdleCourse(env, s);
        if s.loop.pending.None? && !Intended(env, s).writes[0].PutPublished? {
          PrepareDoes(env, s);
        }
      }
    }
  }

  // ----- where a run goes on and where it stops

  /** A candidate with nothing left to review is published by the next write. */
  lemma ReviewedIsPublished(env: Env, s: Store)
    requires Inv(env, s) && s.loop.pending.None? && s.loop.candidate.Some? && s.loop.scopes == [] && s.published.None?
    ensures Step(env, s).published == s.loop.candidate
  {
    hide IsLedger, DraftsCounted, QuestionsKept, PlanSafe, RecordsHonest, KeysHold, NothingForgotten, DecidedIds, ReviewWork.IsWork, ReviewsRelations, TurnIsSafe, IsEarned, Gate, Prepare, Turn;
    CompleteReviewPassesGate(env, s);
    var w := PutPublished(s.loop.candidate.value);
    assert Intended(env, s).writes == [w];
    FirstRemains(s, w);
  }

  lemma FirstRemains(s: Store, w: Write)
    requires !Has(s, w) && !Conflicts(s, w)
    ensures Remaining(s, [w]) != [] && Remaining(s, [w])[0] == w
  {
    hide Has, Conflicts;
  }

  /** Sources cannot be planned further. */
  predicate SourcesStop(env: Env, s: Store) {
    Exceeds(s.loop.failures, SourceProtocol) || s.calls + 3 > env.budget || env.batch(s.loop.planned).None?
  }

  /** Neither can the review go on. */
  predicate ReviewStops(env: Env, s: Store) {
    match env.ready(s.loop, s.current.article)
    case None => true
    case Some(work) => work.scopes == [] || Exceeds(s.loop.failures, ReviewProtocol(s.loop.candidate, work.scopes[0].id))
  }

  /** Nor the writing. */
  predicate WritingStops(env: Env, s: Store) {
    || s.current.version >= REVISIONS || (s.loop.issues != [] && s.loop.repairActions >= REPAIR_LIMIT)
    || match env.plan(s.loop, s.current.article)
       case None => true
       case Some(scopes) => s.calls + 1 + Max(1, env.reserve(s.loop, s.current.article, scopes)) > env.budget
  }

  predicate IsStopped(env: Env, s: Store) {
    || s.published.Some? || s.calls >= env.budget || s.loop.noProgress >= env.noProgressLimit
    || if !AllIn(env.transcript, s.loop.planned) then SourcesStop(env, s)
       else if s.loop.candidate.Some? then ReviewStops(env, s)
       else WritingStops(env, s)
  }

  /** MAIN RESULT: at a checkpoint a run stops for these reasons and no other; what is reviewed in full is
      published first. */
  lemma StopsExactly(env: Env, s: Store)
    requires Dutiful(env, s) && s.loop.pending.None? && !(s.published.None? && s.loop.candidate.Some? && s.loop.scopes == [])
    ensures RemainingWork(env, s) == [] <==> IsStopped(env, s)
  {
    hide IsLedger, DraftsCounted, IsSafe, QuestionsKept, Findings, AllReported, Duty, Gate, AllIn, Exceeds, Remaining, Turn;
    ApprovedHasNothingPending(env, s);
    NoCourse(s);
    if Intended(env, s).writes != [] && s.published.None? {
      ReservingIsWork(env, s);
    }
  }

  lemma NoCourse(s: Store)
    ensures Remaining(s, []) == []
  {
  }

  lemma ApprovedHasNothingPending(env: Env, s: Store)
    requires Inv(env, s) && s.loop.pending.None?
    ensures s.loop.candidate.Some? && s.loop.candidate.value in s.approvals ==> s.loop.scopes == []
  {
    hide IsLedger, DraftsCounted, IsSafe, IsKept;
    if s.loop.candidate.Some? && s.loop.candidate.value in s.approvals {
      assert Approves(s.loop, s.loop.candidate.value);
    }
  }

  /** The checkpoint of a new call is still to be written. */
  lemma ReservingIsWork(env: Env, s: Store)
    requires Duty(env, s) && s.loop.pending.None? && s.published.None? && Intended(env, s).writes != []
    requires s.loop.candidate.Some? ==> s.loop.candidate.value !in s.approvals
    ensures RemainingWork(env, s) != []
  {
    hide Prepare, Gate, Turn, DutyAt, InputsDeliver, IsWithin;
    PreparesNextSlot(env, s);
    var p := Prepare(env, s).value;
    assert Intended(env, s).writes == [PutInput(p.call), PutCheckpoint(s.calls + 1, p.loop.(pending := Some(p.call)))];
    CheckpointRemains(s, p.call, PutCheckpoint(s.calls + 1, p.loop.(pending := Some(p.call))));
  }

  lemma CheckpointRemains(s: Store, call: Call, w: Write)
    requires w.PutCheckpoint? && (call.slot in s.inputs ==> s.inputs[call.slot] == call)
    ensures Remaining(s, [PutInput(call), w]) != []
  {
    if call.slot in s.inputs {
      assert [PutInput(call), w][1..] == [w];
    }
  }
}
